/** An independent reader for the JSON that the services exchange, after RFC 8259: string
    bodies are decoded as its section 7 says, and flat objects and arrays of them are read
    strictly. Nothing here is part of the services; it says what their texts mean. */
module JsonReader {
  import opened JsonText
  import opened Wrappers

  // MARK: string bodies

  function HexValue(c: char): (v: Option<nat>)
    ensures v.Some? ==> v.value < 16
  {
    if '0' <= c <= '9' then Some(c as int - '0' as int)
    else if 'a' <= c <= 'f' then Some(c as int - 'a' as int + 10)
    else if 'A' <= c <= 'F' then Some(c as int - 'A' as int + 10)
    else None
  }

  /** The code unit written with four hex digits. */
  function CodeUnit(digits: string): (code: Option<nat>)
    requires |digits| == 4
    ensures code.Some? ==> code.value < 0x1_0000
  {
    var a, b, c, d := HexValue(digits[0]), HexValue(digits[1]), HexValue(digits[2]), HexValue(digits[3]);
    if a.None? || b.None? || c.None? || d.None? then None
    else Some(((a.value * 16 + b.value) * 16 + c.value) * 16 + d.value)
  }

  /** The UTF-8 bytes of a code point below U+10000 (section 3 of RFC 3629). */
  function Utf8(code: nat): string
    requires code < 0x1_0000
  {
    if code < 0x80 then [code as char]
    else if code < 0x800 then [(0xC0 + code / 0x40) as char, (0x80 + code % 0x40) as char]
    else [(0xE0 + code / 0x1000) as char, (0x80 + code / 0x40 % 0x40) as char, (0x80 + code % 0x40) as char]
  }

  /** The two-character escapes. */
  function ShortEscape(c: char): Option<char> {
    match c
    case '"' => Some('"')
    case '\\' => Some('\\')
    case '/' => Some('/')
    case 'b' => Some(8 as char)
    case 'f' => Some(12 as char)
    case 'n' => Some(10 as char)
    case 'r' => Some(13 as char)
    case 't' => Some(9 as char)
    case _ => None
  }

  function Prepend(u: string, v: Option<string>): Option<string> {
    if v.None? then None else Some(u + v.value)
  }

  /** The string that a body stands for; None if it is not a body. Surrogate pairs, which
      need two escapes, are not decoded. */
  function Decode(body: string): Option<string> {
    if body == "" then Some("")
    else if body[0] == '"' || body[0] < ' ' then None
    else if body[0] != '\\' then Prepend(body[..1], Decode(body[1..]))
    else if |body| >= 6 && body[1] == 'u' then
      var code := CodeUnit(body[2..6]);
      if code.None? || 0xD800 <= code.value < 0xE000 then None else Prepend(Utf8(code.value), Decode(body[6..]))
    else if |body| >= 2 && ShortEscape(body[1]).Some? then
      Prepend([ShortEscape(body[1]).value], Decode(body[2..]))
    else None
  }

  // MARK: flat objects

  function SkipWs(t: string): (rest: string)
    ensures |rest| <= |t|
  {
    if t != "" && (t[0] == ' ' || t[0] == '\t' || t[0] == '\n' || t[0] == '\r') then SkipWs(t[1..]) else t
  }

  /** What was read, and the text behind it. */
  datatype Read<T> = Bad | Read(value: T, rest: string)

  /** The token `c`, with the white space around it. */
  function Token(t: string, c: char): Option<string> {
    var u := SkipWs(t);
    if u == "" || u[0] != c then None else Some(SkipWs(u[1..]))
  }

  /** A string body and its closing quote. */
  function ReadBody(t: string): (r: Read<string>)
    ensures r.Read? ==> |r.rest| < |t|
  {
    if t == "" || t[0] < ' ' then Bad
    else if t[0] == '"' then Read("", t[1..])
    else
      var n := if t[0] == '\\' then 2 else 1;
      if |t| < n then Bad
      else
        match ReadBody(t[n..])
        case Bad => Bad
        case Read(body, rest) => Read(t[..n] + body, rest)
  }

  function LeadingDigits(t: string): (d: string)
    ensures d <= t
  {
    if t != "" && '0' <= t[0] <= '9' then t[..1] + LeadingDigits(t[1..]) else ""
  }

  /** An integer: an optional minus, and digits without a leading zero. */
  function ReadInteger(t: string): (r: Read<string>)
    ensures r.Read? ==> |r.rest| < |t|
  {
    var sign := if t != "" && t[0] == '-' then 1 else 0;
    var d := LeadingDigits(t[sign..]);
    if d == "" || (|d| > 1 && d[0] == '0') then Bad else Read(t[..sign + |d|], t[sign + |d|..])
  }

  function ReadString(t: string): (r: Read<string>)
    ensures r.Read? ==> |r.rest| < |t|
  {
    if t == "" || t[0] != '"' then Bad else ReadBody(t[1..])
  }

  function ReadScalar(t: string): (r: Read<Value>)
    ensures r.Read? ==> |r.rest| < |t|
  {
    if t != "" && t[0] == '"' then
      match ReadString(t) case Bad => Bad case Read(body, rest) => Read(Str(body), rest)
    else
      match ReadInteger(t) case Bad => Bad case Read(text, rest) => Read(Num(text), rest)
  }

  /** A name, a colon and a value. */
  function ReadMember(t: string): (r: Read<Field>)
    ensures r.Read? ==> |r.rest| < |t|
  {
    match ReadString(t)
    case Bad => Bad
    case Read(key, rest) =>
      match Token(rest, ':')
      case None => Bad
      case Some(v) =>
        assert |v| <= |rest|;
        match ReadScalar(v)
        case Bad => Bad
        case Read(value, rest') => Read(Field(key, value), rest')
  }

  /** The members up to the closing brace. */
  function ReadMembers(t: string): (r: Read<seq<Field>>)
    ensures r.Read? ==> |r.rest| < |t|
    decreases |t|
  {
    match ReadMember(t)
    case Bad => Bad
    case Read(f, rest) =>
      var u := SkipWs(rest);
      if u != "" && u[0] == '}' then Read([f], u[1..])
      else if u != "" && u[0] == ',' then
        match ReadMembers(SkipWs(u[1..]))
        case Bad => Bad
        case Read(fs, rest') => Read([f] + fs, rest')
      else Bad
  }

  /** A flat object with at least one member. */
  function ReadObject(t: string): (r: Read<seq<Field>>)
    ensures r.Read? ==> |r.rest| < |t|
  {
    if t == "" || t[0] != '{' then Bad else ReadMembers(SkipWs(t[1..]))
  }

  /** The objects up to the closing bracket. */
  function ReadObjects(t: string): (r: Read<seq<seq<Field>>>)
    decreases |t|
  {
    match ReadObject(t)
    case Bad => Bad
    case Read(fs, rest) =>
      var u := SkipWs(rest);
      if u != "" && u[0] == ']' then Read([fs], u[1..])
      else if u != "" && u[0] == ',' then
        match ReadObjects(SkipWs(u[1..]))
        case Bad => Bad
        case Read(list, rest') => Read([fs] + list, rest')
      else Bad
  }

  /** An array of at least one object. */
  function ReadArray(t: string): Read<seq<seq<Field>>> {
    if t == "" || t[0] != '[' then Bad else ReadObjects(SkipWs(t[1..]))
  }
}
