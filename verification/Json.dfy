/** JSON as the collection prints it (`canonical`) and reads it back (`json.loads` with `unique_object`). */

module Json {
  import opened Outcomes
  import opened Text

  /** A decoded JSON document. A float keeps its lexeme; mappings carry no order, as `dict` equality does not. */
  datatype Json =
    | JNull
    | JBool(b: bool)
    | JInt(n: int)
    | JFloat(lexeme: Bytes)
    | JString(s: Text)
    | JList(items: seq<Json>)
    | JObject(fields: map<Text, Json>)

  // ---------------------------------------------------------------- strings

  predicate High(c: int) { 0xD800 <= c < 0xDC00 }

  predicate Low(c: int) { 0xDC00 <= c < 0xE000 }

  function HexDigit(d: int): (b: Byte)
    requires 0 <= d < 16
  {
    if d < 10 then 48 + d else 87 + d
  }

  function HexValue(b: Byte): (r: Option<int>)
    ensures r.Some? ==> 0 <= r.value < 16
  {
    if 48 <= b <= 57 then Some(b - 48)
    else if 97 <= b <= 102 then Some(b - 87)
    else if 65 <= b <= 70 then Some(b - 55)
    else None
  }

  /** A backslash, `u` and four lowercase hexadecimal digits, then k. */
  function EmitUnit(u: int, k: Bytes): Bytes
    requires 0 <= u < 0x1_0000
  {
    [92, 117, HexDigit(u / 4096), HexDigit(u / 256 % 16), HexDigit(u / 16 % 16), HexDigit(u % 16)] + k
  }

  /** The named escape of c, or 0 when it has none. */
  function Named(c: CodePoint): Byte {
    if c == 34 then 34 else if c == 92 then 92
    else if c == 8 then 98 else if c == 12 then 102
    else if c == 10 then 110 else if c == 13 then 114 else if c == 9 then 116
    else 0
  }

  function EmitChar(c: CodePoint, k: Bytes): Bytes {
    if Named(c) != 0 then [92, Named(c)] + k
    else if 32 <= c < 127 then [c] + k
    else if c < 0x1_0000 then EmitUnit(c, k)
    else EmitUnit(0xD800 + (c - 0x1_0000) / 1024, EmitUnit(0xDC00 + (c - 0x1_0000) % 1024, k))
  }

  function EmitChars(t: Text, k: Bytes): Bytes {
    if t == [] then k else EmitChar(t[0], EmitChars(t[1..], k))
  }

  /** The quoted, ASCII-escaped form of t, in front of k. */
  function EmitString(t: Text, k: Bytes): Bytes {
    [34] + EmitChars(t, [34] + k)
  }

  /** Four hexadecimal digits at the head of s. */
  function ParseUnit(s: Bytes): (r: Option<int>)
    ensures r.Some? ==> |s| >= 4 && 0 <= r.value < 0x1_0000
  {
    if |s| < 4 then None else
      match (HexValue(s[0]), HexValue(s[1]), HexValue(s[2]), HexValue(s[3]))
      case (Some(a), Some(b), Some(c), Some(d)) => Some(((a * 16 + b) * 16 + c) * 16 + d)
      case _ => None
  }

  function Combine(high: int, low: int): CodePoint
    requires High(high) && Low(low)
  {
    0x1_0000 + (high - 0xD800) * 1024 + (low - 0xDC00)
  }

  /** The character a named escape letter stands for. */
  function Unnamed(letter: Byte): Option<CodePoint> {
    if letter == 34 then Some(34) else if letter == 92 then Some(92) else if letter == 47 then Some(47)
    else if letter == 98 then Some(8) else if letter == 102 then Some(12)
    else if letter == 110 then Some(10) else if letter == 114 then Some(13) else if letter == 116 then Some(9)
    else None
  }

  datatype Parsed<+T> = Parsed(value: T, rest: Bytes)

  /** The unit of a `\uXXXX` escape at the head of s. */
  function PeekUnit(s: Bytes): (r: Option<int>)
    ensures r.Some? ==> |s| >= 6
  {
    if |s| >= 2 && s[0] == 92 && s[1] == 117 then ParseUnit(s[2..]) else None
  }

  /** One character of a string body: a literal, a named escape, one unit or a surrogate pair. */
  function ParseChar(s: Bytes): (r: Option<Parsed<CodePoint>>)
    ensures r.Some? ==> |r.value.rest| < |s|
  {
    if s == [] || s[0] < 32 || s[0] >= 128 || s[0] == 34 then None
    else if s[0] != 92 then Some(Parsed(s[0], s[1..]))
    else if |s| < 2 then None
    else if s[1] != 117 then
      match Unnamed(s[1])
      case Some(c) => Some(Parsed(c, s[2..]))
      case None => None
    else
      match PeekUnit(s)
      case None => None
      case Some(u) =>
        var next := PeekUnit(s[6..]);
        if High(u) && next.Some? && Low(next.value)
        then Some(Parsed(Combine(u, next.value), s[12..]))
        else Some(Parsed(u, s[6..]))
  }

  /** A string body up to and including its closing quote. */
  function ParseChars(s: Bytes): (r: Option<Parsed<Text>>)
    ensures r.Some? ==> |r.value.rest| < |s|
    decreases |s|
  {
    if s != [] && s[0] == 34 then Some(Parsed([], s[1..])) else
      match ParseChar(s)
      case None => None
      case Some(first) =>
        match ParseChars(first.rest)
        case None => None
        case Some(more) => Some(Parsed([first.value] + more.value, more.rest))
  }

  // ---------------------------------------------------------------- numbers

  function EmitNat(n: nat, k: Bytes): Bytes
    decreases n
  {
    if n < 10 then [48 + n] + k else EmitNat(n / 10, [48 + n % 10] + k)
  }

  function EmitInt(n: int, k: Bytes): Bytes {
    if n < 0 then [45] + EmitNat(-n, k) else EmitNat(n, k)
  }

  predicate Digit(b: Byte) { 48 <= b <= 57 }

  predicate StartsDigit(s: Bytes) { s != [] && Digit(s[0]) }

  /** The digits at the head of s appended to acc, and what follows them. */
  function ParseDigits(s: Bytes, acc: nat): (r: Parsed<nat>)
    ensures |r.rest| <= |s| && (StartsDigit(s) ==> |r.rest| < |s|)
    ensures !StartsDigit(r.rest)
    decreases |s|
  {
    if StartsDigit(s) then ParseDigits(s[1..], acc * 10 + (s[0] - 48)) else Parsed(acc, s)
  }

  /** What follows an optional fraction: a point and at least one digit. */
  function SkipFraction(s: Bytes): (r: Bytes)
    ensures |r| <= |s|
  {
    if |s| >= 2 && s[0] == 46 && Digit(s[1]) then ParseDigits(s[1..], 0).rest else s
  }

  /** What follows the letter of an exponent and its optional sign. */
  function ExponentDigits(s: Bytes): (r: Bytes)
    requires s != []
    ensures |r| < |s|
  {
    if |s| >= 2 && (s[1] == 43 || s[1] == 45) then s[2..] else s[1..]
  }

  /** What follows an optional exponent: `e` or `E`, an optional sign and at least one digit. */
  function SkipExponent(s: Bytes): (r: Bytes)
    ensures |r| <= |s|
  {
    if s == [] || (s[0] != 69 && s[0] != 101) then s else
      var digits := ExponentDigits(s);
      if StartsDigit(digits) then ParseDigits(digits, 0).rest else s
  }

  function Unsigned(s: Bytes): (body: Bytes)
    ensures |body| <= |s|
  {
    if s != [] && s[0] == 45 then s[1..] else s
  }

  /** The whole part of a number, without leading zeros, and what follows it. */
  function ParseWhole(body: Bytes): (r: Parsed<nat>)
    requires StartsDigit(body)
    ensures |r.rest| < |body|
  {
    if body[0] == 48 then Parsed(0, body[1..]) else ParseDigits(body, 0)
  }

  function ParseNumber(s: Bytes): (r: Option<Parsed<Json>>)
    ensures r.Some? ==> |r.value.rest| < |s|
  {
    if !StartsDigit(Unsigned(s)) then None else
      var whole := ParseWhole(Unsigned(s));
      var rest := SkipExponent(SkipFraction(whole.rest));
      if rest == whole.rest
      then Some(Parsed(JInt(if s[0] == 45 then 0 - whole.value else whole.value), rest))
      else Some(Parsed(JFloat(s[..|s| - |rest|]), rest))
  }

  // ----------------------------------------------------------------- values

  /** v in its canonical form, in front of k: keys sorted, no spaces, ASCII only. */
  function Emit(v: Json, k: Bytes): Bytes
    decreases v, 1, 0
  {
    match v
    case JNull => [110, 117, 108, 108] + k
    case JBool(true) => [116, 114, 117, 101] + k
    case JBool(false) => [102, 97, 108, 115, 101] + k
    case JInt(n) => EmitInt(n, k)
    case JFloat(lexeme) => lexeme + k
    case JString(s) => EmitString(s, k)
    case JList(items) => if items == [] then [91, 93] + k else [91] + Emit(items[0], EmitItems(items[1..], k))
    case JObject(fields) =>
      var keys := Sorted(fields.Keys);
      if keys == [] then [123, 125] + k else [123] + EmitMember(v, keys, k)
  }

  /** The items after the first, each behind its comma, and the closing bracket. */
  function EmitItems(items: seq<Json>, k: Bytes): Bytes
    decreases items, 0, 0
  {
    if items == [] then [93] + k else [44] + Emit(items[0], EmitItems(items[1..], k))
  }

  /** The members of v named by keys, separated by commas, and the closing brace. */
  function EmitMember(v: Json, keys: seq<Text>, k: Bytes): Bytes
    requires v.JObject? && keys != [] && forall key :: key in keys ==> key in v.fields
    decreases v, 0, |keys|
  {
    var more := if |keys| == 1 then [125] + k else [44] + EmitMember(v, keys[1..], k);
    EmitString(keys[0], [58] + Emit(v.fields[keys[0]], more))
  }

  function Canonical(v: Json): Bytes { Emit(v, []) }

  predicate Space(b: Byte) { b == 32 || b == 9 || b == 10 || b == 13 }

  function SkipSpace(s: Bytes): (r: Bytes)
    ensures |r| <= |s|
    ensures r != [] ==> !Space(r[0])
  {
    if s != [] && Space(s[0]) then SkipSpace(s[1..]) else s
  }

  /** The constants of the grammar, and the three that Python adds. */
  function ParseConstant(s: Bytes): (r: Option<Parsed<Json>>)
    ensures r.Some? ==> |r.value.rest| < |s|
  {
    if [110, 117, 108, 108] <= s then Some(Parsed(JNull, s[4..]))
    else if [116, 114, 117, 101] <= s then Some(Parsed(JBool(true), s[4..]))
    else if [102, 97, 108, 115, 101] <= s then Some(Parsed(JBool(false), s[5..]))
    else if [78, 97, 78] <= s then Some(Parsed(JFloat(s[..3]), s[3..]))
    else if [73, 110, 102, 105, 110, 105, 116, 121] <= s then Some(Parsed(JFloat(s[..8]), s[8..]))
    else if [45, 73, 110, 102, 105, 110, 105, 116, 121] <= s then Some(Parsed(JFloat(s[..9]), s[9..]))
    else None
  }

  function ParseValue(s: Bytes): (r: Option<Parsed<Json>>)
    ensures r.Some? ==> |r.value.rest| < |s|
    decreases |s|, 4
  {
    if s == [] then None
    else if s[0] == 34 then
      match ParseChars(s[1..])
      case Some(p) => Some(Parsed(JString(p.value), p.rest))
      case None => None
    else if s[0] == 91 then ParseList(SkipSpace(s[1..]))
    else if s[0] == 123 then ParseObject(SkipSpace(s[1..]))
    else
      match ParseConstant(s)
      case Some(p) => Some(p)
      case None => ParseNumber(s)
  }

  /** A list after its opening bracket. */
  function ParseList(body: Bytes): (r: Option<Parsed<Json>>)
    ensures r.Some? ==> |r.value.rest| < |body|
    decreases |body|, 6
  {
    if body != [] && body[0] == 93 then Some(Parsed(JList([]), body[1..])) else
      match ParseItems(body)
      case Some(p) => Some(Parsed(JList(p.value), p.rest))
      case None => None
  }

  /** An object after its opening brace. */
  function ParseObject(body: Bytes): (r: Option<Parsed<Json>>)
    ensures r.Some? ==> |r.value.rest| < |body|
    decreases |body|, 7
  {
    if body != [] && body[0] == 125 then Some(Parsed(JObject(map[]), body[1..])) else
      match ParseMembers(body)
      case Some(p) => Some(Parsed(JObject(p.value), p.rest))
      case None => None
  }

  /** At least one item, up to and including the closing bracket. */
  function ParseItems(s: Bytes): (r: Option<Parsed<seq<Json>>>)
    ensures r.Some? ==> |r.value.rest| < |s|
    decreases |s|, 5
  {
    match ParseValue(s)
    case None => None
    case Some(first) =>
      var after := SkipSpace(first.rest);
      if after == [] then None
      else if after[0] == 93 then Some(Parsed([first.value], after[1..]))
      else if after[0] != 44 then None
      else
        match ParseItems(SkipSpace(after[1..]))
        case None => None
        case Some(more) => Some(Parsed([first.value] + more.value, more.rest))
  }

  /** At least one member, up to and including the closing brace; a repeated key is an error. */
  function ParseMembers(s: Bytes): (r: Option<Parsed<map<Text, Json>>>)
    ensures r.Some? ==> |r.value.rest| < |s|
    decreases |s|, 6
  {
    match ParseMember(s)
    case None => None
    case Some(first) =>
      var (key, value) := first.value;
      var after := SkipSpace(first.rest);
      if after == [] then None
      else if after[0] == 125 then Some(Parsed(map[key := value], after[1..]))
      else if after[0] != 44 then None
      else
        match ParseMembers(SkipSpace(after[1..]))
        case None => None
        case Some(more) =>
          if key in more.value then None else Some(Parsed(more.value[key := value], more.rest))
  }

  function ParseMember(s: Bytes): (r: Option<Parsed<(Text, Json)>>)
    ensures r.Some? ==> |r.value.rest| < |s|
    decreases |s|, 5
  {
    match ParseKey(s)
    case None => None
    case Some(key) =>
      match ParseValue(key.rest)
      case None => None
      case Some(p) => Some(Parsed((key.value, p.value), p.rest))
  }

  /** A member's key, its colon and the space around it. */
  function ParseKey(s: Bytes): (r: Option<Parsed<Text>>)
    ensures r.Some? ==> |r.value.rest| < |s|
  {
    if s == [] || s[0] != 34 then None else
      match ParseChars(s[1..])
      case None => None
      case Some(p) =>
        var after := SkipSpace(p.rest);
        if after == [] || after[0] != 58 then None
        else Some(Parsed(p.value, SkipSpace(after[1..])))
  }

  /** `json.loads(data, object_pairs_hook=unique_object)`; None is its ValueError. */
  function Parse(data: Bytes): Option<Json> {
    match ParseValue(SkipSpace(data))
    case None => None
    case Some(p) => if SkipSpace(p.rest) == [] then Some(p.value) else None
  }
}
