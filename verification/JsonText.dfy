/** JSON values, and the compact text they are written as. */
module JsonText {
  /** A number is an integer or a finite double, the latter by its bits. */
  datatype Number = Integer(value: int) | Float(bits: nat)

  /** An object keeps its fields in the order they were inserted. */
  datatype Json =
    | Null
    | Bool(bool)
    | Number(number: Number)
    | Str(text: string)
    | Arr(items: seq<Json>)
    | Obj(fields: seq<Field>)

  datatype Field = Field(key: string, value: Json)

  /** How strings are quoted and doubles written. */
  datatype Style = Style(quote: string -> string, float: nat -> string)

  function Join(texts: seq<string>): string {
    if texts == [] then ""
    else if |texts| == 1 then texts[0]
    else Join(texts[..|texts| - 1]) + "," + texts[|texts| - 1]
  }

  lemma JoinSnoc(texts: seq<string>, last: string)
    ensures Join(texts + [last]) == Join(texts) + (if texts == [] then "" else ",") + last
  {
    assert (texts + [last])[..|texts|] == texts;
    if texts == [] { assert texts + [last] == [last]; }
  }

  function DigitChar(d: nat): (c: char)
    requires d < 10
    ensures c as int == '0' as int + d
  {
    ('0' as int + d) as char
  }

  function Digits(n: nat): string {
    (if n < 10 then "" else Digits(n / 10)) + [DigitChar(n % 10)]
  }

  function Decimal(i: int): string { if i < 0 then "-" + Digits(-i) else Digits(i) }

  function Text(style: Style, j: Json): string
    decreases j
  {
    match j
    case Null => "null"
    case Bool(b) => if b then "true" else "false"
    case Number(Integer(i)) => Decimal(i)
    case Number(Float(bits)) => style.float(bits)
    case Str(s) => style.quote(s)
    case Arr(items) => "[" + Join(ItemTexts(style, items)) + "]"
    case Obj(fields) => "{" + Join(FieldTexts(style, fields)) + "}"
  }

  function ItemTexts(style: Style, items: seq<Json>): (texts: seq<string>)
    ensures |texts| == |items|
    decreases items
  {
    if items == [] then []
    else ItemTexts(style, items[..|items| - 1]) + [Text(style, items[|items| - 1])]
  }

  function FieldTexts(style: Style, fields: seq<Field>): (texts: seq<string>)
    ensures |texts| == |fields|
    decreases fields
  {
    if fields == [] then []
    else
      var last := fields[|fields| - 1];
      FieldTexts(style, fields[..|fields| - 1]) + [style.quote(last.key) + ":" + Text(style, last.value)]
  }

  /** The texts of the values, each by its form. */
  lemma TextForms(style: Style, i: int, bits: nat, s: string)
    ensures Text(style, Null) == "null" && Text(style, Bool(true)) == "true" && Text(style, Bool(false)) == "false"
    ensures Text(style, Number(Integer(i))) == if i < 0 then "-" + Digits(-i) else Digits(i)
    ensures Text(style, Number(Float(bits))) == style.float(bits) && Text(style, Str(s)) == style.quote(s)
  {
  }

  lemma {:induction false} ItemForms(style: Style, items: seq<Json>)
    ensures Text(style, Arr(items)) == "[" + Join(ItemTexts(style, items)) + "]"
    ensures forall i :: 0 <= i < |items| ==> ItemTexts(style, items)[i] == Text(style, items[i])
  {
    if items == [] {
    } else {
      ItemForms(style, items[..|items| - 1]);
    }
  }

  lemma {:induction false} FieldForms(style: Style, fields: seq<Field>)
    ensures Text(style, Obj(fields)) == "{" + Join(FieldTexts(style, fields)) + "}"
    ensures forall i :: 0 <= i < |fields| ==>
              FieldTexts(style, fields)[i] == style.quote(fields[i].key) + ":" + Text(style, fields[i].value)
  {
    if fields == [] {
    } else {
      FieldForms(style, fields[..|fields| - 1]);
    }
  }

  lemma TwoFields(style: Style, a: Field, b: Field)
    ensures Text(style, Obj([a, b])) ==
            "{" + (style.quote(a.key) + ":" + Text(style, a.value)) + ","
            + (style.quote(b.key) + ":" + Text(style, b.value)) + "}"
  {
    var first := style.quote(a.key) + ":" + Text(style, a.value);
    var second := style.quote(b.key) + ":" + Text(style, b.value);
    assert [a, b][..1] == [a] && [a][..0] == [];
    assert FieldTexts(style, [a]) == [first];
    assert FieldTexts(style, [a, b]) == [first] + [second];
    JoinSnoc([first], second);
  }
}
