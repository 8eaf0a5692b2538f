/** A reader of JSON texts without white space, written from RFC 8259: values (section 3), objects and arrays
    (sections 4 and 5), strings with their escapes (section 7). Numbers are kept as the characters they have. */
module JsonReader {
  import opened Options

  /** What JSON.stringify is given, and what a text holds, which is never undefined. */
  datatype Value =
    | Undefined
    | Null
    | Bool(b: bool)
    | Num(digits: string)
    | Str(s: string)
    | Arr(items: seq<Value>)
    | Obj(members: seq<Member>)

  datatype Member = Member(key: string, value: Value)

  // ---- strings

  function HexDigit(c: char): Option<nat> {
    var n := c as nat;
    if 48 <= n <= 57 then Some(n - 48)
    else if 97 <= n <= 102 then Some(n - 87)
    else if 65 <= n <= 70 then Some(n - 55)
    else None
  }

  /** The character after a reverse solidus that stands for another one. */
  function Short(c: char): Option<char> {
    if c == '\"' || c == '\\' || c == '/' then Some(c)
    else if c == 'b' then Some(8 as char)
    else if c == 'f' then Some(12 as char)
    else if c == 'n' then Some(10 as char)
    else if c == 'r' then Some(13 as char)
    else if c == 't' then Some(9 as char)
    else None
  }

  /** The first character of a string's body, and what follows it. */
  function Unescape(s: string): (r: Option<(char, string)>)
    ensures r.Some? ==> |r.value.1| < |s|
  {
    if s == "" || s[0] == '\"' || s[0] as nat < 32 then None
    else if s[0] != '\\' then Some((s[0], s[1..]))
    else if |s| >= 2 && Short(s[1]).Some? then Some((Short(s[1]).value, s[2..]))
    else if |s| >= 6 && s[1] == 'u' then
      var a, b, c, d := HexDigit(s[2]), HexDigit(s[3]), HexDigit(s[4]), HexDigit(s[5]);
      if a.None? || b.None? || c.None? || d.None? then None
      else
        var n := ((a.value * 16 + b.value) * 16 + c.value) * 16 + d.value;
        if 0xd800 <= n < 0xe000 || n > 0xffff then None else Some((n as char, s[6..]))
    else None
  }

  /** A string's body and its closing quotation mark. */
  function ReadString(s: string): (r: Option<(string, string)>)
    ensures r.Some? ==> |r.value.1| < |s|
    decreases |s|
  {
    if s != "" && s[0] == '\"' then Some(("", s[1..]))
    else
      match Unescape(s)
      case None => None
      case Some((c, rest)) =>
        match ReadString(rest)
        case None => None
        case Some((cs, after)) => Some(([c] + cs, after))
  }

  // ---- values

  predicate NumberChar(c: char) {
    '0' <= c <= '9' || c == '-' || c == '+' || c == '.' || c == 'e'
  }

  function NumberChars(s: string): (n: nat)
    ensures n <= |s|
  {
    if s != "" && NumberChar(s[0]) then 1 + NumberChars(s[1..]) else 0
  }

  function ReadValue(s: string): (r: Option<(Value, string)>)
    ensures r.Some? ==> |r.value.1| < |s|
    decreases |s|, 0
  {
    if s == "" then None
    else if "null" <= s then Some((Null, s[4..]))
    else if "true" <= s then Some((Bool(true), s[4..]))
    else if "false" <= s then Some((Bool(false), s[5..]))
    else if s[0] == '\"' then
      match ReadString(s[1..])
      case None => None
      case Some((cs, after)) => Some((Str(cs), after))
    else if s[0] == '[' then
      match ReadItems(s[1..], true)
      case None => None
      case Some((items, after)) => Some((Arr(items), after))
    else if s[0] == '{' then
      match ReadMembers(s[1..], true)
      case None => None
      case Some((members, after)) => Some((Obj(members), after))
    else
      var n := NumberChars(s);
      if n == 0 then None else Some((Num(s[..n]), s[n..]))
  }

  /** The items up to the closing bracket; all but the first come after a comma. */
  function ReadItems(s: string, first: bool): (r: Option<(seq<Value>, string)>)
    ensures r.Some? ==> |r.value.1| < |s|
    decreases |s|, 1
  {
    if s == "" then None
    else if s[0] == ']' then Some(([], s[1..]))
    else if !first && s[0] != ',' then None
    else
      match ReadValue(if first then s else s[1..])
      case None => None
      case Some((v, rest)) =>
        match ReadItems(rest, false)
        case None => None
        case Some((vs, after)) => Some(([v] + vs, after))
  }

  function ReadMembers(s: string, first: bool): (r: Option<(seq<Member>, string)>)
    ensures r.Some? ==> |r.value.1| < |s|
    decreases |s|, 1
  {
    if s == "" then None
    else if s[0] == '}' then Some(([], s[1..]))
    else if !first && s[0] != ',' then None
    else
      match ReadMember(if first then s else s[1..])
      case None => None
      case Some((m, rest)) =>
        match ReadMembers(rest, false)
        case None => None
        case Some((ms, after)) => Some(([m] + ms, after))
  }

  function ReadMember(s: string): (r: Option<(Member, string)>)
    ensures r.Some? ==> |r.value.1| < |s|
    decreases |s|, 0
  {
    if s == "" || s[0] != '\"' then None
    else
      match ReadString(s[1..])
      case None => None
      case Some((key, rest)) =>
        if rest == "" || rest[0] != ':' then None
        else
          match ReadValue(rest[1..])
          case None => None
          case Some((v, after)) => Some((Member(key, v), after))
  }
}
