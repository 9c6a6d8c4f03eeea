/** JSON documents, the two canonical writers' common text, and an RFC 8259 reader
    (sections 2 to 7). */
module JsonText {
  import opened Names
  import opened Numbers

  datatype Json =
    | JNull
    | JBool(b: bool)
    | JInt(n: int)
    | JReal(f: Float)
    | JStr(s: string)
    | JArr(items: seq<Json>)
    | JObj(members: seq<JMember>)

  /** One member of an object; an object keeps the order of its members. */
  datatype JMember = JMember(key: string, value: Json)

  // --- Writing -------------------------------------------------------------------

  /** How a writer lays a document out. Pretty is the schema document's: a line per
      item, two-space indent. Compact is the digest's: no insignificant whitespace. */
  datatype Layout = Pretty | Compact

  function Indent(depth: nat): (r: string)
    ensures forall c :: c in r ==> c == ' '
  {
    if depth == 0 then "" else "  " + Indent(depth - 1)
  }

  function Gap(l: Layout, depth: nat): (r: string)
    ensures forall c :: c in r ==> IsJsonSpace(c)
  {
    if l == Pretty then "\n" + Indent(depth) else ""
  }

  function Colon(l: Layout): string {
    if l == Pretty then ": " else ":"
  }

  function HexDigit(k: nat): char
    requires k < 16
  {
    "0123456789abcdef"[k]
  }

  function UnicodeEscape(code: nat): string
    requires code < 0x10000
  {
    "\\u" + [HexDigit(code / 4096), HexDigit(code / 256 % 16), HexDigit(code / 16 % 16), HexDigit(code % 16)]
  }

  /** Escaping: what JSON mandates and nothing else, except that the compact writer is
      encoding/json's, which also escapes U+2028 and U+2029. */
  function EscapeChar(l: Layout, c: char): string {
    if c == '"' then "\\\""
    else if c == '\\' then "\\\\"
    else if c == '\U{8}' then "\\b"
    else if c == '\U{C}' then "\\f"
    else if c == '\n' then "\\n"
    else if c == '\r' then "\\r"
    else if c == '\t' then "\\t"
    else if c < ' ' then UnicodeEscape(c as int)
    else if l == Compact && (c == '\U{2028}' || c == '\U{2029}') then UnicodeEscape(c as int)
    else [c]
  }

  function Escape(l: Layout, s: string): string {
    if s == "" then "" else EscapeChar(l, s[0]) + Escape(l, s[1..])
  }

  function Quote(l: Layout, s: string): string {
    "\"" + Escape(l, s) + "\""
  }

  /** The text of a document at a depth. */
  function Text(l: Layout, v: Json, depth: nat): string
    decreases v, 1
  {
    match v
    case JNull => "null"
    case JBool(b) => if b then "true" else "false"
    case JInt(n) => Itoa(n)
    case JReal(f) => FormatFloatCanonical(f)
    case JStr(s) => Quote(l, s)
    case JArr(items) =>
      if items == [] then "[]" else "[" + ItemsText(l, items, depth + 1) + Gap(l, depth) + "]"
    case JObj(members) =>
      if members == [] then "{}" else "{" + MembersText(l, members, depth + 1) + Gap(l, depth) + "}"
  }

  function ItemsText(l: Layout, items: seq<Json>, depth: nat): string
    requires items != []
    decreases items, 0
  {
    Gap(l, depth) + Text(l, items[0], depth) +
    if |items| == 1 then "" else "," + ItemsText(l, items[1..], depth)
  }

  function MemberText(l: Layout, m: JMember, depth: nat): string
    decreases m, 2
  {
    Gap(l, depth) + Quote(l, m.key) + Colon(l) + Text(l, m.value, depth)
  }

  function MembersText(l: Layout, members: seq<JMember>, depth: nat): string
    requires members != []
    decreases members, 0
  {
    MemberText(l, members[0], depth) +
    if |members| == 1 then "" else "," + MembersText(l, members[1..], depth)
  }

  // --- Reading ----------------------------------------------------------------------

  datatype Read<+T> = Got(value: T, next: nat) | Bad

  predicate IsJsonSpace(c: char) {
    c == ' ' || c == '\t' || c == '\n' || c == '\r'
  }

  function SkipSpace(s: string, i: nat): (j: nat)
    requires i <= |s|
    ensures i <= j <= |s|
    decreases |s| - i
  {
    if i < |s| && IsJsonSpace(s[i]) then SkipSpace(s, i + 1) else i
  }

  function HexValue(c: char): Option<nat> {
    if '0' <= c <= '9' then Some(c as int - '0' as int)
    else if 'a' <= c <= 'f' then Some(c as int - 'a' as int + 10)
    else if 'A' <= c <= 'F' then Some(c as int - 'A' as int + 10)
    else None
  }

  /** Four hexadecimal digits at i. */
  function ReadHex(s: string, i: nat): (r: Read<nat>)
    ensures r.Got? ==> r.next == i + 4 <= |s| && r.value < 0x10000
  {
    if i + 4 > |s| then Bad
    else
      match (HexValue(s[i]), HexValue(s[i + 1]), HexValue(s[i + 2]), HexValue(s[i + 3]))
      case (Some(a), Some(b), Some(c), Some(d)) => Got(a * 4096 + b * 256 + c * 16 + d, i + 4)
      case _ => Bad
  }

  function ShortEscape(c: char): Option<char> {
    match c
    case '"' => Some('"')
    case '\\' => Some('\\')
    case '/' => Some('/')
    case 'b' => Some('\U{8}')
    case 'f' => Some('\U{C}')
    case 'n' => Some('\n')
    case 'r' => Some('\r')
    case 't' => Some('\t')
    case _ => None
  }

  /** What follows a backslash at i - 1, surrogate pairs joined. */
  function ReadEscape(s: string, i: nat): (r: Read<char>)
    ensures r.Got? ==> i < r.next <= |s|
  {
    if i >= |s| then Bad
    else if ShortEscape(s[i]).Some? then Got(ShortEscape(s[i]).value, i + 1)
    else if s[i] != 'u' then Bad
    else
      var high := ReadHex(s, i + 1);
      if high.Bad? then Bad
      else if high.value < 0xD800 || high.value >= 0xE000 then Got(high.value as char, high.next)
      else if high.value >= 0xDC00 || high.next + 2 > |s| || s[high.next] != '\\' || s[high.next + 1] != 'u' then Bad
      else
        var low := ReadHex(s, high.next + 2);
        if low.Bad? || low.value < 0xDC00 || low.value >= 0xE000 then Bad
        else Got((0x10000 + (high.value - 0xD800) * 0x400 + (low.value - 0xDC00)) as char, low.next)
  }

  /** The rest of a string, from inside its quotes to past the closing one. */
  function ReadChars(s: string, i: nat): (r: Read<string>)
    requires i <= |s|
    ensures r.Got? ==> i < r.next <= |s|
    decreases |s| - i
  {
    if i == |s| then Bad
    else if s[i] == '"' then Got("", i + 1)
    else if s[i] == '\\' then
      var e := ReadEscape(s, i + 1);
      if e.Bad? then Bad else Cons(e.value, ReadChars(s, e.next))
    else if s[i] < ' ' then Bad
    else Cons(s[i], ReadChars(s, i + 1))
  }

  function Cons<T>(x: T, rest: Read<seq<T>>): Read<seq<T>> {
    if rest.Bad? then Bad else Got([x] + rest.value, rest.next)
  }

  function DigitsEnd(s: string, i: nat): (e: nat)
    requires i <= |s|
    ensures i <= e <= |s| && forall k :: i <= k < e ==> IsDigit(s[k])
    decreases |s| - i
  {
    if i < |s| && IsDigit(s[i]) then DigitsEnd(s, i + 1) else i
  }

  /** A number's digits before any fraction: no zero in front of another digit. */
  predicate WholeAt(s: string, i: nat) {
    i <= |s| && DigitsEnd(s, i) > i && (s[i] == '0' ==> DigitsEnd(s, i) == i + 1)
  }

  function SignEnd(s: string, i: nat): nat {
    if i < |s| && s[i] == '-' then i + 1 else i
  }

  /** A number without fraction or exponent. */
  function ReadInt(s: string, i: nat): (r: Read<Json>)
    requires i <= |s|
    ensures r.Got? ==> i < r.next <= |s|
  {
    var start := SignEnd(s, i);
    if !WholeAt(s, start) then Bad
    else
      var e := DigitsEnd(s, start);
      if e < |s| && s[e] in {'.', 'e', 'E'} then Bad
      else
        assert AllDigits(s[start..e]);
        var v: int := DigitsValue(s[start..e]);
        Got(JInt(if start > i then -v else v), e)
  }

  /** Where the fraction from e on ends: e itself when there is none. */
  function ReadFraction(s: string, e: nat): (r: Read<string>)
    requires e <= |s|
    ensures r.Got? ==> e <= r.next <= |s| && AllDigits(r.value) && (r.next > e <==> r.value != "")
  {
    if e == |s| || s[e] != '.' then Got("", e)
    else
      var f := DigitsEnd(s, e + 1);
      if f == e + 1 then Bad else Got(s[e + 1..f], f)
  }

  function ReadExponent(s: string, e: nat): (r: Read<int>)
    requires e <= |s|
    ensures r.Got? ==> e <= r.next <= |s|
  {
    if e == |s| || s[e] !in {'e', 'E'} then Got(0, e)
    else
      var signed := e + 1 < |s| && s[e + 1] in {'+', '-'};
      var start := if signed then e + 2 else e + 1;
      var x := DigitsEnd(s, start);
      if x == start then Bad
      else
        assert AllDigits(s[start..x]);
        var v: int := DigitsValue(s[start..x]);
        Got(if signed && s[e + 1] == '-' then -v else v, x)
  }

  /** A number with a fraction, an exponent or both. */
  function ReadReal(s: string, i: nat): (r: Read<Json>)
    requires i <= |s|
    ensures r.Got? ==> i < r.next <= |s|
  {
    var start := SignEnd(s, i);
    if !WholeAt(s, start) then Bad
    else
      var e := DigitsEnd(s, start);
      var fraction := ReadFraction(s, e);
      if fraction.Bad? then Bad
      else
        var exponent := ReadExponent(s, fraction.next);
        if exponent.Bad? || exponent.next == e then Bad
        else
          assert AllDigits(s[start..e]);
          Got(JReal(Normal(start > i, s[start..e], fraction.value, exponent.value)), exponent.next)
  }

  function ReadNumber(s: string, i: nat): (r: Read<Json>)
    requires i <= |s|
    ensures r.Got? ==> i < r.next <= |s|
  {
    var n := ReadInt(s, i);
    if n.Got? then n else ReadReal(s, i)
  }

  function ReadWord(s: string, i: nat, w: string, v: Json): (r: Read<Json>)
    requires w != ""
    ensures r.Got? ==> i < r.next <= |s|
  {
    if At(s, i, w) then Got(v, i + |w|) else Bad
  }

  /** A value at i, leading whitespace allowed. */
  function ReadValue(s: string, i: nat): (r: Read<Json>)
    requires i <= |s|
    ensures r.Got? ==> i < r.next <= |s|
    decreases |s| - i, 1
  {
    var j := SkipSpace(s, i);
    if j == |s| then Bad
    else if s[j] == 'n' then ReadWord(s, j, "null", JNull)
    else if s[j] == 't' then ReadWord(s, j, "true", JBool(true))
    else if s[j] == 'f' then ReadWord(s, j, "false", JBool(false))
    else if s[j] == '"' then
      var t := ReadChars(s, j + 1);
      if t.Bad? then Bad else Got(JStr(t.value), t.next)
    else if s[j] == '[' then
      var k := SkipSpace(s, j + 1);
      if k < |s| && s[k] == ']' then Got(JArr([]), k + 1)
      else
        var items := ReadItems(s, j + 1);
        if items.Bad? then Bad else Got(JArr(items.value), items.next)
    else if s[j] == '{' then
      var k := SkipSpace(s, j + 1);
      if k < |s| && s[k] == '}' then Got(JObj([]), k + 1)
      else
        var members := ReadMembers(s, j + 1);
        if members.Bad? then Bad else Got(JObj(members.value), members.next)
    else ReadNumber(s, j)
  }

  /** One or more values separated by commas, up to the closing bracket. */
  function ReadItems(s: string, i: nat): (r: Read<seq<Json>>)
    requires i <= |s|
    ensures r.Got? ==> i < r.next <= |s|
    decreases |s| - i, 2
  {
    var v := ReadValue(s, i);
    if v.Bad? then Bad
    else
      var k := SkipSpace(s, v.next);
      if k == |s| then Bad
      else if s[k] == ']' then Got([v.value], k + 1)
      else if s[k] == ',' then Cons(v.value, ReadItems(s, k + 1))
      else Bad
  }

  /** A quoted key, a colon and a value. */
  function ReadMember(s: string, i: nat): (r: Read<JMember>)
    requires i <= |s|
    ensures r.Got? ==> i < r.next <= |s|
    decreases |s| - i, 2
  {
    var q := SkipSpace(s, i);
    if q == |s| || s[q] != '"' then Bad
    else
      var key := ReadChars(s, q + 1);
      if key.Bad? then Bad
      else
        var c := SkipSpace(s, key.next);
        if c == |s| || s[c] != ':' then Bad
        else
          var v := ReadValue(s, c + 1);
          if v.Bad? then Bad else Got(JMember(key.value, v.value), v.next)
  }

  function ReadMembers(s: string, i: nat): (r: Read<seq<JMember>>)
    requires i <= |s|
    ensures r.Got? ==> i < r.next <= |s|
    decreases |s| - i, 3
  {
    var m := ReadMember(s, i);
    if m.Bad? then Bad
    else
      var k := SkipSpace(s, m.next);
      if k == |s| then Bad
      else if s[k] == '}' then Got([m.value], k + 1)
      else if s[k] == ',' then Cons(m.value, ReadMembers(s, k + 1))
      else Bad
  }

  /** A whole JSON text. */
  function ReadText(s: string): Option<Json> {
    var v := ReadValue(s, 0);
    if v.Got? && SkipSpace(s, v.next) == |s| then Some(v.value) else None
  }
}
