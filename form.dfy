/** The per-field part of the task form: the sanitised value of a field and
    the form-group its type selects. Page chrome, markdown and linkify are
    library behaviour and are not modelled; controls are abstract. */
module Form {
  import opened Records

  predicate IsAscii(c: char) {
    (c as int) < 0x80
  }

  predicate AllAscii(s: string) {
    forall i :: 0 <= i < |s| ==> IsAscii(s[i])
  }

  /** The row value with every character at or above 0x80 removed. */
  function Strip(s: string): (r: string)
    ensures AllAscii(r)
    ensures |r| <= |s|
  {
    if s == [] then []
    else (if IsAscii(s[0]) then [s[0]] else []) + Strip(s[1..])
  }

  lemma {:induction false} StripKeepsAscii(s: string)
    requires AllAscii(s)
    ensures Strip(s) == s
  {
    if s != [] {
      StripKeepsAscii(s[1..]);
    }
  }

  /** Stripping changes nothing exactly when there is nothing to strip. */
  lemma StripFixedPoint(s: string)
    ensures Strip(s) == s <==> AllAscii(s)
  {
    if AllAscii(s) {
      StripKeepsAscii(s);
    }
  }

  lemma StripIdempotent(s: string)
    ensures Strip(Strip(s)) == Strip(s)
  {
    StripKeepsAscii(Strip(s));
  }

  /** Stripping works character by character, in order. */
  lemma {:induction false} StripConcat(a: string, b: string)
    ensures Strip(a + b) == Strip(a) + Strip(b)
  {
    if a == [] {
      assert a + b == b;
    } else {
      var head := if IsAscii(a[0]) then [a[0]] else [];
      assert (a + b)[0] == a[0];
      assert (a + b)[1..] == a[1..] + b;
      calc {
        Strip(a + b);
        head + Strip(a[1..] + b);
        { StripConcat(a[1..], b); }
        head + (Strip(a[1..]) + Strip(b));
        (head + Strip(a[1..])) + Strip(b);
        Strip(a) + Strip(b);
      }
    }
  }

  /** Every ASCII character keeps its number of occurrences; no other survives. */
  lemma {:induction false} StripCounts(s: string, c: char)
    ensures multiset(Strip(s))[c] == if IsAscii(c) then multiset(s)[c] else 0
  {
    if s != [] {
      StripCounts(s[1..], c);
      assert s == [s[0]] + s[1..];
      assert multiset(s) == multiset([s[0]]) + multiset(s[1..]);
    }
  }

  /** The value a field is rendered with: "" when the row lacks the field. */
  function FieldValue(row: map<string, string>, name: string): (v: string)
    ensures AllAscii(v)
    ensures name !in row ==> v == ""
    ensures name in row ==> v == Strip(row[name]) && |v| <= |row[name]|
  {
    if name in row then Strip(row[name]) else ""
  }

  /** The controls a field type selects; an unrecognised type selects none. */
  function Controls(field: Field, value: string): (cs: seq<Control>)
  {
    match field.Kind()
    case Hidden => [HiddenInput(field.name, value)]
    case Image => [Img(value)]
    case Label => [LinkedText(value)]
    case LongText => [TextArea(field.name, value)]
    case Checkbox => [CheckboxInput(field.name, "yes")]
    case Radio => seq(|field.options|, i requires 0 <= i < |field.options| => RadioInput(field.name, field.options[i]))
    case Select => [SelectBox(field.name, field.options)]
    case ShortText => [TextInput(field.name, value)]
    case Unrecognised(_) => []
  }

  /** The form-group of one field: a heading unless the field is hidden. */
  function Group(field: Field, row: map<string, string>): (g: FormGroup)
  {
    FormGroup(
      if field.Kind() == Hidden then None else Some(Heading(field.name, field.description)),
      Controls(field, FieldValue(row, field.name)))
  }

  /** The task form: one group per configured field, in order. */
  function QuestionFor(title: string, description: string, fields: seq<Field>, row: map<string, string>): (q: Question)
    ensures q.title == title && q.description == description
    ensures |q.groups| == |fields|
    ensures forall i :: 0 <= i < |fields| ==> q.groups[i] == Group(fields[i], row)
  {
    Question(title, description, seq(|fields|, i requires 0 <= i < |fields| => Group(fields[i], row)))
  }

  /** The text of a control that was taken from the row, if any. */
  function RowText(c: Control): (t: Option<string>) {
    match c
    case HiddenInput(_, v) => Some(v)
    case Img(v) => Some(v)
    case LinkedText(v) => Some(v)
    case TextArea(_, v) => Some(v)
    case TextInput(_, v) => Some(v)
    case _ => None
  }

  /** What each field type renders: a heading iff the field is not Hidden; one
      control for the value-carrying types, one radio input per option, one
      select box carrying every option, a checkbox whose value is fixed, and
      nothing for an unrecognised type. Row text reaching the form is ASCII. */
  lemma GroupShape(field: Field, row: map<string, string>)
    ensures var g := Group(field, row);
      && (g.heading.Some? <==> field.Kind() != Hidden)
      && (g.heading.Some? ==> g.heading.value == Heading(field.name, field.description))
      && (field.Kind().Radio? ==>
            |g.controls| == |field.options| &&
            forall i :: 0 <= i < |field.options| ==> g.controls[i] == RadioInput(field.name, field.options[i]))
      && (field.Kind().Select? ==> g.controls == [SelectBox(field.name, field.options)])
      && (field.Kind().Checkbox? ==> g.controls == [CheckboxInput(field.name, "yes")])
      && (field.Kind().Unrecognised? ==> g.controls == [])
      && (field.Kind() == Hidden ==> g.controls == [HiddenInput(field.name, FieldValue(row, field.name))])
      && (field.Kind() == Image ==> g.controls == [Img(FieldValue(row, field.name))])
      && (field.Kind() == Label ==> g.controls == [LinkedText(FieldValue(row, field.name))])
      && (field.Kind() == LongText ==> g.controls == [TextArea(field.name, FieldValue(row, field.name))])
      && (field.Kind() == ShortText ==> g.controls == [TextInput(field.name, FieldValue(row, field.name))])
      && (field.Kind() in {Hidden, Image, Label, LongText, ShortText} ==>
            |g.controls| == 1 && RowText(g.controls[0]) == Some(FieldValue(row, field.name)))
  {
  }

  /** The row only reaches a form through sanitised values: no character at or
      above 0x80 of any row value appears in any control's row text. */
  lemma {:induction false} QuestionIsAscii(title: string, description: string, fields: seq<Field>, row: map<string, string>)
    ensures var q := QuestionFor(title, description, fields, row);
      forall i, j :: 0 <= i < |q.groups| && 0 <= j < |q.groups[i].controls| && RowText(q.groups[i].controls[j]).Some? ==>
        AllAscii(RowText(q.groups[i].controls[j]).value)
  {
    var q := QuestionFor(title, description, fields, row);
    forall i, j | 0 <= i < |q.groups| && 0 <= j < |q.groups[i].controls| && RowText(q.groups[i].controls[j]).Some?
      ensures AllAscii(RowText(q.groups[i].controls[j]).value)
    {
      assert q.groups[i] == Group(fields[i], row);
      var v := FieldValue(row, fields[i].name);
      assert RowText(q.groups[i].controls[j]).value == v;
    }
  }

  /** Checkbox, Radio and Select groups do not depend on the row at all. */
  lemma ChoiceIgnoresRow(field: Field, row1: map<string, string>, row2: map<string, string>)
    requires field.Kind().Checkbox? || field.Kind().Radio? || field.Kind().Select?
    ensures Group(field, row1) == Group(field, row2)
  {
  }
}
