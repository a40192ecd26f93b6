/** The data the workflow driver works on: dataset records, the configured
    field definitions, what the marketplace answers, and the calls the driver
    issues to the marketplace and to the dataset. */
module Records {

  datatype Option<T> = None | Some(value: T)

  /** The dataset column holding a record's workflow status. */
  const StatusKey: string := "DataStoryStatus"
  /** The dataset column holding the id of the marketplace task (HIT). */
  const HitKey: string := "DataStoryHitID"

  /** A value written back to the dataset: a string, or null (Python `None`). */
  datatype Cell = Text(s: string) | Null

  /** One dataset row as fetched: its id and its field name -> value mapping. */
  datatype Record = Record(id: string, fields: map<string, string>)

  /** The configured `Type` of a field; a type name the renderer does not know
      is kept as `Unrecognised`. Fields select their type through `ParseType`,
      so a known name is never kept as `Unrecognised` (`IsWellFormedType`). */
  datatype FieldType =
    | Hidden | Image | Label | LongText | Checkbox | Radio | Select | ShortText
    | Unrecognised(typeName: string)

  /** The encoding convention of `FieldType`: `Unrecognised` carries only a
      name that none of the eight known types has. */
  predicate IsWellFormedType(t: FieldType) {
    t.Unrecognised? ==>
      t.typeName !in {"Hidden", "Image", "Label", "LongText", "Checkbox", "Radio", "Select", "ShortText"}
  }

  /** The type a configured `Type` string selects: each of the eight names the
      renderer compares against is its own constructor, any other name is kept. */
  function ParseType(name: string): (t: FieldType)
    ensures IsWellFormedType(t)
    ensures t.Unrecognised? ==> t.typeName == name
    ensures t == Hidden <==> name == "Hidden"
    ensures t == Image <==> name == "Image"
    ensures t == Label <==> name == "Label"
    ensures t == LongText <==> name == "LongText"
    ensures t == Checkbox <==> name == "Checkbox"
    ensures t == Radio <==> name == "Radio"
    ensures t == Select <==> name == "Select"
    ensures t == ShortText <==> name == "ShortText"
  {
    if name == "Hidden" then Hidden
    else if name == "Image" then Image
    else if name == "Label" then Label
    else if name == "LongText" then LongText
    else if name == "Checkbox" then Checkbox
    else if name == "Radio" then Radio
    else if name == "Select" then Select
    else if name == "ShortText" then ShortText
    else Unrecognised(name)
  }

  /** One configured field definition: its `Name`, its `Type` as configured,
      its `Description` and its `Options` (read only for Radio and Select). */
  datatype Field = Field(name: string, typeName: string, description: string, options: seq<string>)
  {
    /** The type the configured name selects; always well formed. */
    function Kind(): (t: FieldType)
      ensures IsWellFormedType(t)
    {
      ParseType(typeName)
    }
  }

  /** The configuration the driver reads: what a created HIT is published with,
      and the ordered field definitions. */
  datatype Config = Config(
    reward: string, title: string, keywords: string, description: string,
    fields: seq<Field>)

  /** One parsed `answer` element of a submission: its `questionidentifier`
      and its `freetext`. */
  datatype Answer = Answer(identifier: string, freetext: string)

  /** One assignment (submission) as listed by the marketplace. */
  datatype Assignment = Assignment(workerId: string, assignmentId: string, answers: seq<Answer>)

  /** What `create_hit` did: returned a new HIT id, or failed with a client
      error whose code is or is not `ParameterValidationError`. */
  datatype CreateResult = Created(hitId: string) | ParameterValidationError | OtherClientError

  /** The marketplace's answers to the calls made while one record is processed:
      the `create_hit` outcome, the unfiltered assignment listing, the HIT's
      status, and the listing filtered to Submitted/Approved assignments. */
  datatype Responses = Responses(
    created: CreateResult,
    assignments: seq<Assignment>,
    hitStatus: string,
    reviewable: seq<Assignment>)

  /** The calls the driver issues, in order: marketplace calls and dataset updates. */
  datatype Call =
    | CreateHit(request: HitRequest)
    | ListAssignments(hitId: string, reviewableOnly: bool)
    | GetHit(hitId: string)
    | ExtendExpiration(hitId: string)
    | CreateWorkerBlock(workerId: string, reason: string)
    | RejectAssignment(assignmentId: string, feedback: string)
    | UpdateRecord(recordId: string, update: map<string, Cell>)

  /** The parameters of one `create_hit` call. */
  datatype HitRequest = HitRequest(
    reward: string, title: string, keywords: string, description: string,
    autoApprovalDelaySeconds: nat, assignmentDurationSeconds: nat,
    maxAssignments: nat, lifetimeSeconds: nat,
    question: Question)

  /** The task form shown to a worker, as abstract controls rather than HTML. */
  datatype Question = Question(title: string, description: string, groups: seq<FormGroup>)

  /** One `form-group`: an optional label with description, then the controls. */
  datatype FormGroup = FormGroup(heading: Option<Heading>, controls: seq<Control>)

  datatype Heading = Heading(name: string, description: string)

  /** One form control. `name`s come from the field definition; `value`s and
      `text`s of the row-driven controls come from the sanitised row value. */
  datatype Control =
    | HiddenInput(name: string, value: string)
    | Img(src: string)
    | LinkedText(text: string)
    | TextArea(name: string, text: string)
    | CheckboxInput(name: string, value: string)
    | RadioInput(name: string, value: string)
    | SelectBox(name: string, options: seq<string>)
    | TextInput(name: string, value: string)
}
