/** The attribute values a record can hold, and how Python prints them. */
module Values {
  import opened Decimal
  import opened PyDict
  import Timestamps

  /** An attribute value: the scalars and lists `json.loads` produces
      (strings, integers, floats, booleans, `None`, lists), plus the
      `datetime` objects the record keeps under `created_at` and
      `updated_at`. A float is kept as the text of its `repr`, with no
      arithmetic on it. Nested JSON objects are not values of this model. */
  datatype Value =
    | Str(s: string)
    | Int(i: int)
    | Float(literal: string)
    | Bool(b: bool)
    | None
    | List(items: seq<Value>)
    | Time(t: Timestamps.Timestamp)

  /** Whether `json.dump` can write the value: everything but a `datetime`. */
  predicate IsJson(v: Value) {
    match v
    case Time(_) => false
    case List(xs) => forall x | x in xs :: IsJson(x)
    case _ => true
  }

  predicate IsJsonDict(d: Dict<Value>) {
    forall k | k in d.entries :: IsJson(d.entries[k])
  }

  /** `str(i)` */
  function IntText(i: int): string {
    if i < 0 then "-" + Digits(-i) else Digits(i)
  }

  /** `repr(v)`: text in quotes, a list in brackets, the two keywords of a
      boolean, `None`, and the decimal numeral of an integer. */
  function Repr(v: Value): (r: string)
    ensures v.Str? ==> |r| >= 2 && (r[0] == '\'' || r[0] == '"') && r[|r| - 1] == r[0]
    ensures v.List? ==> |r| >= 2 && r[0] == '[' && r[|r| - 1] == ']'
    ensures v.Bool? ==> r == (if v.b then "True" else "False")
    ensures v.None? ==> r == "None"
    ensures v.Int? ==> |r| >= 1 && (v.i < 0 <==> r[0] == '-')
  {
    match v
    case Str(s) => StrRepr(s)
    case Int(i) => IntText(i)
    case Float(literal) => literal
    case Bool(b) => if b then "True" else "False"
    case None => "None"
    case List(xs) => "[" + ReprItems(xs) + "]"
    case Time(t) => Timestamps.Repr(t)
  }

  /** The elements' reprs joined by ", ". */
  function ReprItems(xs: seq<Value>): string
    decreases xs
  {
    if xs == [] then ""
    else if |xs| == 1 then Repr(xs[0])
    else Repr(xs[0]) + ", " + ReprItems(xs[1..])
  }

  /** `str(v)`, as an f-string writes the record's id: a string is written
      bare, a `datetime` with a space separator, anything else as its repr. */
  function StrOf(v: Value): string {
    match v
    case Str(s) => s
    case Time(t) => Timestamps.Str(t)
    case _ => Repr(v)
  }

  /** `repr(s)` for a string: single quotes unless the text holds a single
      quote and no double quote. */
  function StrRepr(s: string): string {
    var q := if '\'' in s && '"' !in s then '"' else '\'';
    [q] + Escape(s, q) + [q]
  }

  /** The body of a string repr: backslash, the chosen quote, tab, newline
      and carriage return are escaped; the other non-printable characters up
      to U+00FF (the C0 controls, DEL through NO-BREAK SPACE, SOFT HYPHEN)
      become `\xhh`. */
  function Escape(s: string, q: char): string {
    if s == [] then "" else EscapeChar(s[0], q) + Escape(s[1..], q)
  }

  function EscapeChar(c: char, q: char): string {
    if c == '\\' || c == q then ['\\', c]
    else if c == '\t' then "\\t"
    else if c == '\n' then "\\n"
    else if c == '\r' then "\\r"
    else if c as int < 0x20 || 0x7f <= c as int <= 0xa0 || c as int == 0xad then
      "\\x" + [HexDigit(c as int / 16), HexDigit(c as int % 16)]
    else [c]
  }

  function HexDigit(d: nat): char
    requires d < 16
  {
    "0123456789abcdef"[d]
  }

  /** A character `repr` writes as itself in single quotes: printable
      ASCII other than the quotes and the backslash. */
  predicate Plain(c: char) {
    0x20 <= c as int <= 0x7e && c != '\\' && c != '\'' && c != '"'
  }

  /** A string of plain characters is printed between single quotes as it
      stands (`'id': '5'` in a record's rendering). */
  lemma {:induction false} StrReprPlain(s: string)
    requires forall i :: 0 <= i < |s| ==> Plain(s[i])
    ensures StrRepr(s) == "'" + s + "'"
  {
    EscapePlain(s, '\'');
  }

  lemma {:induction false} EscapePlain(s: string, q: char)
    requires forall i :: 0 <= i < |s| ==> Plain(s[i])
    requires q == '\'' || q == '"'
    ensures Escape(s, q) == s
  {
    if s != [] {
      EscapePlain(s[1..], q);
      assert s == [s[0]] + s[1..];
    }
  }

  /** `repr(d)` for a dict: `{` then `'key': value` pairs in insertion order,
      joined by ", ", then `}`. */
  function DictRepr(d: Dict<Value>): string {
    "{" + PairsRepr(d.keys, d.entries) + "}"
  }

  function PairsRepr(keys: seq<string>, entries: map<string, Value>): string
    requires forall k | k in keys :: k in entries
  {
    if keys == [] then ""
    else if |keys| == 1 then PairRepr(keys[0], entries[keys[0]])
    else
      var k := keys[|keys| - 1];
      PairsRepr(keys[..|keys| - 1], entries) + ", " + PairRepr(k, entries[k])
  }

  function PairRepr(k: string, v: Value): string {
    StrRepr(k) + ": " + Repr(v)
  }

  /** The rendering of a three-entry dict, pair by pair. */
  lemma PairsReprOfThree(k1: string, k2: string, k3: string, e: map<string, Value>)
    requires k1 in e && k2 in e && k3 in e
    ensures PairsRepr([k1, k2, k3], e)
         == PairRepr(k1, e[k1]) + ", " + PairRepr(k2, e[k2]) + ", " + PairRepr(k3, e[k3])
  {
    assert [k1, k2, k3][..2] == [k1, k2];
    assert [k1, k2][..1] == [k1];
    assert PairsRepr([k1], e) == PairRepr(k1, e[k1]);
    assert PairsRepr([k1, k2], e) == PairRepr(k1, e[k1]) + ", " + PairRepr(k2, e[k2]);
  }
}
