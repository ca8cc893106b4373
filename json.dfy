/**
 * The JSON trees the relay builds and reads through its object mapper, and the few tree
 * accessors it uses (`path`, `asText`, `asLong`). Parsing and serialising text are library
 * code; they are bundled in `Mapper` and passed in as parameters.
 */
module JsonModel {
  import opened Base

  /** A JSON value as an in-memory tree. Numbers are integral (the relay only stores epoch seconds). */
  datatype Json =
    | JNull
    | JBool(b: bool)
    | JNum(n: int)
    | JStr(s: string)
    | JArr(items: seq<Json>)
    | JObj(fields: map<string, Json>)

  /**
   * `node.path(key)`: the member named `key` of an object; `None` is the "missing node"
   * returned for an absent member or a non-object node.
   */
  function Path(node: Json, key: string): (r: Option<Json>)
    ensures r.Some? <==> node.JObj? && key in node.fields
    ensures r.Some? ==> r.value == node.fields[key]
  {
    if node.JObj? && key in node.fields then Some(node.fields[key]) else None
  }

  function DigitChar(d: nat): (c: char)
    requires d < 10
    ensures '0' <= c <= '9' && c as int - '0' as int == d
  {
    ('0' as int + d) as char
  }

  /** A non-empty string of decimal digits. */
  predicate IsDigits(s: string) {
    |s| >= 1 && forall i :: 0 <= i < |s| ==> '0' <= s[i] <= '9'
  }

  /** The number a string of decimal digits denotes, most significant digit first. */
  function DecVal(s: string): nat
    requires forall i :: 0 <= i < |s| ==> '0' <= s[i] <= '9'
    decreases |s|
  {
    if s == [] then 0
    else
      var last := s[|s| - 1];
      assert '0' <= last <= '9';
      10 * DecVal(s[..|s| - 1]) + (last as int - '0' as int)
  }

  /** Decimal integer text: digits, optionally after a minus sign. */
  predicate IsDecimal(s: string) {
    IsDigits(s) || (|s| >= 2 && s[0] == '-' && IsDigits(s[1..]))
  }

  /** The integer a decimal text denotes. */
  function ReadDecimal(s: string): int
    requires IsDecimal(s)
  {
    if s[0] == '-' then -(DecVal(s[1..]) as int) else DecVal(s)
  }

  /** Decimal digits of a natural number, most significant first, no leading zeros. */
  function NatText(n: nat): (s: string)
    ensures IsDigits(s) && DecVal(s) == n
    ensures (|s| > 1) == (n >= 10) && (|s| > 1 ==> s[0] != '0')
  {
    if n < 10 then
      var s := [DigitChar(n)];
      assert s[..|s| - 1] == [];
      s
    else
      var p := NatText(n / 10);
      var s := p + [DigitChar(n % 10)];
      assert s[..|s| - 1] == p;
      s
  }

  /** Java's decimal rendering of an integer (`Long.toString`, or `BigInteger.toString` beyond the long range). */
  function IntText(n: int): (s: string)
    ensures IsDecimal(s) && ReadDecimal(s) == n
  {
    if n < 0 then
      var s := "-" + NatText(-n);
      assert s[1..] == NatText(-n);
      s
    else NatText(n)
  }

  /**
   * `node.asText()`: the text of a string node, the full decimal form of a number (a literal
   * beyond the long range is a big-integer node and is not narrowed), "true"/"false",
   * "null" for a null node, and the empty string for containers and for a missing node.
   */
  function AsText(node: Option<Json>): (r: string)
    ensures node.Some? && node.value.JStr? ==> r == node.value.s
    ensures node.None? ==> r == ""
    ensures node.Some? && node.value.JNum? ==> IsDecimal(r) && ReadDecimal(r) == node.value.n
  {
    match node
    case None => ""
    case Some(JNull) => "null"
    case Some(JBool(b)) => if b then "true" else "false"
    case Some(JNum(n)) => IntText(n)
    case Some(JStr(s)) => s
    case Some(JArr(_)) => ""
    case Some(JObj(_)) => ""
  }

  /**
   * `node.asLong()`: a number narrowed to a Java long, 1/0 for booleans and 0 for a null,
   * missing or container node. Textual numbers are not parsed (see README).
   */
  function AsLong(node: Option<Json>): (r: int)
    ensures InLongRange(r)
    ensures node.Some? && node.value.JNum? && InLongRange(node.value.n) ==> r == node.value.n
    ensures node.None? ==> r == 0
  {
    match node
    case Some(JNum(n)) => ToLong(n)
    case Some(JBool(b)) => if b then 1 else 0
    case _ => 0
  }

  /**
   * The object mapper: parsing a request body (given as its UTF-8 bytes), parsing a stored
   * document, and serialising a tree. `None` from a parser is a parse exception.
   */
  datatype Mapper = Mapper(
    readBody: seq<jbyte> -> Option<Json>,
    readText: string -> Option<Json>,
    write: Json -> string)

  /** What the relay relies on from the mapper: a serialised tree parses back to itself. */
  ghost predicate ReadsBackWhatItWrites(m: Mapper) {
    forall j: Json :: m.readText(m.write(j)) == Some(j)
  }
}
