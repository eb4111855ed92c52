/** JSON values and their compact text. */
module JsonValues {
  import opened Escaping
  import opened Integers
  import opened PrettyText

  datatype Json =
    | JNull
    | JBool(b: bool)
    | JInt(n: int)
    | JStr(s: string)
    | JArr(elems: seq<Json>)
    | JObj(fields: seq<Field>)
  datatype Field = Field(key: string, value: Json)

  function BoolText(b: bool): string {
    if b then "true" else "false"
  }

  function Text(j: Json): string
    decreases j, 1
  {
    match j
    case JNull => "null"
    case JBool(b) => BoolText(b)
    case JInt(n) => IntText(n)
    case JStr(s) => Quoted(s)
    case JArr(elems) => "[" + ElemsText(elems) + "]"
    case JObj(fields) => "{" + FieldsText(fields) + "}"
  }

  // The three literals, letter by letter.
  lemma Literals()
    ensures Text(JNull) == ['n', 'u', 'l', 'l']
    ensures Text(JBool(true)) == ['t', 'r', 'u', 'e']
    ensures Text(JBool(false)) == ['f', 'a', 'l', 's', 'e']
  {}

  function ElemsText(elems: seq<Json>): string
    decreases elems, 0
  {
    if elems == [] then ""
    else Text(elems[0]) + (if |elems| == 1 then "" else "," + ElemsText(elems[1..]))
  }

  function FieldText(f: Field): string
    decreases f, 2
  {
    Quoted(f.key) + ":" + Text(f.value)
  }

  function FieldsText(fields: seq<Field>): string
    decreases fields, 0
  {
    if fields == [] then ""
    else FieldText(fields[0]) + (if |fields| == 1 then "" else "," + FieldsText(fields[1..]))
  }

  predicate Outside(shape: Shape) {
    !InString(shape) && Settled(shape)
  }

  lemma StaysOutside(shape: Shape, c: char)
    requires Outside(shape) && c != '"'
    ensures Outside(Next(shape, [c]))
  {
    if shape.Indented? { RenderOne(shape, c); }
  }

  lemma DecimalUnstructured(n: nat)
    ensures Unstructured(Decimal(n)) && Unstructured("-" + Decimal(n))
  {
    DecimalIsCanonical(n);
    assert forall i :: 0 <= i < |Decimal(n)| ==> IsDigit(Decimal(n)[i]);
  }

  // A whole value leaves a pretty buffer between tokens again.
  lemma {:induction false} TextOutside(j: Json, shape: Shape)
    requires Outside(shape)
    ensures Outside(Next(shape, Text(j)))
    decreases j, 1
  {
    hide Next, InString, Settled;
    match j
    case JNull => RenderUnstructured(shape, "null");
    case JBool(b) => RenderUnstructured(shape, BoolText(b));
    case JInt(n) =>
      DecimalUnstructured(if n < 0 then -n else n);
      RenderUnstructured(shape, IntText(n));
    case JStr(s) => RenderQuoted(shape, s);
    case JArr(elems) =>
      StaysOutside(shape, '[');
      ElemsOutside(elems, Next(shape, "["));
      StaysOutside(Next(Next(shape, "["), ElemsText(elems)), ']');
      RenderSplit(shape, "[", ElemsText(elems));
      RenderSplit(shape, "[" + ElemsText(elems), "]");
    case JObj(fields) =>
      StaysOutside(shape, '{');
      FieldsOutside(fields, Next(shape, "{"));
      StaysOutside(Next(Next(shape, "{"), FieldsText(fields)), '}');
      RenderSplit(shape, "{", FieldsText(fields));
      RenderSplit(shape, "{" + FieldsText(fields), "}");
  }

  lemma {:induction false} ElemsOutside(elems: seq<Json>, shape: Shape)
    requires Outside(shape)
    ensures Outside(Next(shape, ElemsText(elems)))
    decreases elems, 0
  {
    hide Next, InString, Settled;
    if elems == [] {
      NextNothing(shape);
    } else {
      TextOutside(elems[0], shape);
      var t := Text(elems[0]);
      if |elems| == 1 {
        assert t + "" == t;
      } else {
        StaysOutside(Next(shape, t), ',');
        ElemsOutside(elems[1..], Next(Next(shape, t), ","));
        RenderSplit(shape, t, "," + ElemsText(elems[1..]));
        RenderSplit(Next(shape, t), ",", ElemsText(elems[1..]));
      }
    }
  }

  lemma NextNothing(shape: Shape)
    ensures Next(shape, "") == shape
  {}

  lemma {:induction false} FieldsOutside(fields: seq<Field>, shape: Shape)
    requires Outside(shape)
    ensures Outside(Next(shape, FieldsText(fields)))
    decreases fields, 0
  {
    hide Next, InString, Settled;
    if fields == [] {
      NextNothing(shape);
    } else {
      var f := fields[0];
      var k := Quoted(f.key);
      RenderQuoted(shape, f.key);
      StaysOutside(shape, ':');
      TextOutside(f.value, Next(shape, ":"));
      RenderSplit(shape, k, ":");
      RenderSplit(shape, k + ":", Text(f.value));
      var t := FieldText(f);
      if |fields| == 1 {
        assert t + "" == t;
      } else {
        StaysOutside(Next(shape, t), ',');
        FieldsOutside(fields[1..], Next(Next(shape, t), ","));
        RenderSplit(shape, t, "," + FieldsText(fields[1..]));
        RenderSplit(Next(shape, t), ",", FieldsText(fields[1..]));
      }
    }
  }
}
