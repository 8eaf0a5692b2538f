/** The text that frames are signed over (sig.js): JSON.stringify with the sorted top-level keys as property
    list, as section 25.5.2 of ECMA-262 defines it. */
module Canonical {
  import opened Options
  import opened JsonReader

  // ---- strings

  function Hex(n: nat): char
    requires n < 16
  {
    "0123456789abcdef"[n]
  }

  /** QuoteJSONString, one character. */
  function Escape(c: char): string {
    if c == '\"' then "\\\""
    else if c == '\\' then "\\\\"
    else if c as nat == 8 then "\\b"
    else if c as nat == 9 then "\\t"
    else if c as nat == 10 then "\\n"
    else if c as nat == 12 then "\\f"
    else if c as nat == 13 then "\\r"
    else if c as nat < 32 then ['\\', 'u', '0', '0', Hex(c as nat / 16), Hex(c as nat % 16)]
    else [c]
  }

  function Escaped(s: string): string {
    if s == "" then "" else Escape(s[0]) + Escaped(s[1..])
  }

  function Quote(s: string): string {
    "\"" + Escaped(s) + "\""
  }

  // ---- JSON.stringify with a property list

  function Joined(parts: seq<string>): string {
    if parts == [] then "" else if |parts| == 1 then parts[0] else parts[0] + "," + Joined(parts[1..])
  }

  function IndexOf(ms: seq<Member>, key: string): (i: nat)
    ensures i <= |ms| && (i < |ms| ==> ms[i].key == key)
    ensures forall j :: 0 <= j < i ==> ms[j].key != key
  {
    if ms == [] || ms[0].key == key then 0 else 1 + IndexOf(ms[1..], key)
  }

  /** None where the value is left out. */
  function Stringify(v: Value, keys: seq<string>): Option<string>
    decreases v, 0
  {
    match v
    case Undefined => None
    case Null => Some("null")
    case Bool(b) => Some(if b then "true" else "false")
    case Num(digits) => Some(digits)
    case Str(s) => Some(Quote(s))
    case Arr(items) => Some("[" + Joined(ItemTexts(items, keys)) + "]")
    case Obj(members) => Some("{" + Joined(MemberTexts(members, keys, keys)) + "}")
  }

  function ItemTexts(items: seq<Value>, keys: seq<string>): seq<string>
    decreases items, 0
  {
    if items == [] then []
    else
      var t := Stringify(items[0], keys);
      [if t.Some? then t.value else "null"] + ItemTexts(items[1..], keys)
  }

  /** The members named in `order`, in that order, whatever order the object holds them in. */
  function MemberTexts(members: seq<Member>, order: seq<string>, keys: seq<string>): seq<string>
    decreases members, |order|
  {
    if order == [] then []
    else
      var i := IndexOf(members, order[0]);
      var rest := MemberTexts(members, order[1..], keys);
      if i == |members| then rest
      else
        var t := Stringify(members[i].value, keys);
        if t.None? then rest else [Quote(order[0]) + ":" + t.value] + rest
  }

  // ---- sorting the keys

  predicate Less(a: string, b: string) {
    b != "" && (a == "" || a[0] < b[0] || (a[0] == b[0] && Less(a[1..], b[1..])))
  }

  function Insert(key: string, keys: seq<string>): seq<string> {
    if keys == [] || Less(key, keys[0]) then [key] + keys else [keys[0]] + Insert(key, keys[1..])
  }

  function Sorted(keys: seq<string>): seq<string> {
    if keys == [] then [] else Insert(keys[0], Sorted(keys[1..]))
  }

  function Keys(ms: seq<Member>): seq<string> {
    if ms == [] then [] else [ms[0].key] + Keys(ms[1..])
  }

  /** What is signed. */
  function Canonical(payload: seq<Member>): string {
    var keys := Sorted(Keys(payload));
    "{" + Joined(MemberTexts(payload, keys, keys)) + "}"
  }

  // ---- values cut down to key names

  /** The part of a value that its text shows: objects hold only the named members, in the list's order,
      without undefined ones; undefined items are null. */
  function Cut(v: Value, keys: seq<string>): Value
    decreases v, 0
  {
    match v
    case Arr(items) => Arr(CutItems(items, keys))
    case Obj(members) => Obj(CutMembers(members, keys, keys))
    case _ => v
  }

  function CutItems(items: seq<Value>, keys: seq<string>): seq<Value>
    decreases items, 0
  {
    if items == [] then []
    else [if items[0].Undefined? then Null else Cut(items[0], keys)] + CutItems(items[1..], keys)
  }

  function CutMembers(members: seq<Member>, order: seq<string>, keys: seq<string>): seq<Member>
    decreases members, |order|
  {
    if order == [] then []
    else
      var i := IndexOf(members, order[0]);
      var rest := CutMembers(members, order[1..], keys);
      if i == |members| || members[i].value.Undefined? then rest
      else [Member(order[0], Cut(members[i].value, keys))] + rest
  }

  /** JSON.stringify without a list, of a value that holds no undefined. */
  function Text(v: Value): string
    decreases v, 0
  {
    match v
    case Undefined => ""
    case Null => "null"
    case Bool(b) => if b then "true" else "false"
    case Num(digits) => digits
    case Str(s) => Quote(s)
    case Arr(items) => "[" + Joined(Texts(items)) + "]"
    case Obj(members) => "{" + Joined(Pairs(members)) + "}"
  }

  function Texts(items: seq<Value>): seq<string>
    decreases items, 0
  {
    if items == [] then [] else [Text(items[0])] + Texts(items[1..])
  }

  function Pairs(members: seq<Member>): seq<string>
    decreases members, 0
  {
    if members == [] then [] else [Quote(members[0].key) + ":" + Text(members[0].value)] + Pairs(members[1..])
  }

  lemma {:induction false} StringifyCuts(v: Value, keys: seq<string>)
    ensures Stringify(v, keys) == if v.Undefined? then None else Some(Text(Cut(v, keys)))
    decreases v, 0
  {
    match v
    case Arr(items) => ItemsCut(items, keys);
    case Obj(members) => MembersCut(members, keys, keys);
    case _ =>
  }

  lemma {:induction false} ItemsCut(items: seq<Value>, keys: seq<string>)
    ensures ItemTexts(items, keys) == Texts(CutItems(items, keys))
    decreases items, 0
  {
    if items != [] {
      StringifyCuts(items[0], keys);
      ItemsCut(items[1..], keys);
    }
  }

  lemma {:induction false} MembersCut(members: seq<Member>, order: seq<string>, keys: seq<string>)
    ensures MemberTexts(members, order, keys) == Pairs(CutMembers(members, order, keys))
    decreases members, |order|
  {
    if order != [] {
      MembersCut(members, order[1..], keys);
      var i := IndexOf(members, order[0]);
      if i < |members| { StringifyCuts(members[i].value, keys); }
    }
  }

  // ---- texts tell values apart

  /** Values without undefined, whose numbers are printed as JavaScript prints finite ones. */
  predicate Plain(v: Value)
    decreases v, 0
  {
    match v
    case Undefined => false
    case Num(digits) =>
      digits != "" && ('0' <= digits[0] <= '9' || digits[0] == '-') && forall i :: 0 <= i < |digits| ==> NumberChar(digits[i])
    case Arr(items) => PlainItems(items)
    case Obj(members) => PlainMembers(members)
    case _ => true
  }

  predicate PlainItems(items: seq<Value>)
    decreases items, 0
  {
    items == [] || (Plain(items[0]) && PlainItems(items[1..]))
  }

  predicate PlainMembers(members: seq<Member>)
    decreases members, 0
  {
    members == [] || (Plain(members[0].value) && PlainMembers(members[1..]))
  }

  /** What can follow a value inside a text. */
  predicate Stops(r: string) {
    r == "" || r[0] == ',' || r[0] == ']' || r[0] == '}'
  }

  lemma HexReads(n: nat)
    requires n < 16
    ensures HexDigit(Hex(n)) == Some(n)
  {}

  lemma ControlReads(c: char, r: string)
    requires c as nat < 32
    ensures Unescape(['\\', 'u', '0', '0', Hex(c as nat / 16), Hex(c as nat % 16)] + r) == Some((c, r))
  {
    var s := ['\\', 'u', '0', '0', Hex(c as nat / 16), Hex(c as nat % 16)] + r;
    HexReads(c as nat / 16);
    HexReads(c as nat % 16);
    assert s[6..] == r && s[1] == 'u' && HexDigit(s[2]) == Some(0) && HexDigit(s[3]) == Some(0);
  }

  /** A reader of string literals undoes the escape of each character. */
  lemma EscapeReads(c: char, r: string)
    ensures Unescape(Escape(c) + r) == Some((c, r))
  {
    var s := Escape(c) + r;
    if |Escape(c)| == 6 {
      ControlReads(c, r);
    } else {
      assert s[|Escape(c)|..] == r && s[0] == Escape(c)[0];
      assert |Escape(c)| == 2 ==> s[1] == Escape(c)[1];
    }
  }

  /** Only quotation marks, reverse solidi and control characters are escaped; five of those and the two
      marks by one letter, the others by their code in lower-case hexadecimal. */
  lemma EscapeShape(c: char)
    ensures var n := c as nat;
      |Escape(c)| == if n >= 32 && c != '\"' && c != '\\' then 1 else if n >= 32 || 8 <= n <= 10 || 12 <= n <= 13 then 2 else 6
    ensures forall i :: 0 <= i < |Escape(c)| && |Escape(c)| > 1 ==> !('A' <= Escape(c)[i] <= 'Z')
    ensures Escape(c)[0] != '\"'
  {}

  lemma Front(a: string, b: string, r: string)
    requires a != ""
    ensures (a + b) + r == a + (b + r) && (a + (b + r))[0] == a[0]
  {}

  lemma EscapedStep(s: string, r: string)
    requires s != ""
    ensures Escaped(s) + r == Escape(s[0]) + (Escaped(s[1..]) + r)
    ensures (Escaped(s) + r)[0] != '\"'
  {
    EscapeShape(s[0]);
    Front(Escape(s[0]), Escaped(s[1..]), r);
  }

  lemma {:induction false} EscapedReads(s: string, r: string)
    ensures ReadString(Escaped(s) + ("\"" + r)) == Some((s, r))
  {
    if s == "" {
      assert Escaped(s) + ("\"" + r) == "\"" + r;
    } else {
      EscapedStep(s, "\"" + r);
      EscapedReads(s[1..], r);
      CharReads(s, Escaped(s) + ("\"" + r), Escaped(s[1..]) + ("\"" + r), r);
    }
  }

  lemma CharReads(s: string, text: string, rest: string, r: string)
    requires s != "" && text == Escape(s[0]) + rest && text[0] != '\"' && ReadString(rest) == Some((s[1..], r))
    ensures ReadString(text) == Some((s, r))
  {
    EscapeReads(s[0], rest);
    assert s == [s[0]] + s[1..];
  }

  lemma {:induction false} NumberEnds(digits: string, r: string)
    requires forall i :: 0 <= i < |digits| ==> NumberChar(digits[i])
    requires Stops(r)
    ensures NumberChars(digits + r) == |digits|
  {
    if digits == "" {
      assert digits + r == r;
    } else {
      NumberEnds(digits[1..], r);
      assert (digits + r)[1..] == digits[1..] + r;
    }
  }

  // A list's text, read from its first element on.

  function Tail(parts: seq<string>, close: string): string {
    if parts == [] then close else "," + (parts[0] + Tail(parts[1..], close))
  }

  function Body(parts: seq<string>, close: string): string {
    if parts == [] then close else parts[0] + Tail(parts[1..], close)
  }

  lemma {:induction false} JoinedBody(parts: seq<string>, close: string)
    ensures Joined(parts) + close == Body(parts, close)
  {
    if |parts| > 1 {
      JoinedBody(parts[1..], close);
      assert Joined(parts) + close == parts[0] + ("," + (Joined(parts[1..]) + close));
    }
  }

  lemma TailStops(parts: seq<string>, close: string, r: string)
    requires close == "]" || close == "}"
    ensures Stops(Tail(parts, close) + r)
  {}

  lemma Regrouped(a: string, b: string, c: string, r: string)
    ensures a + b + c + r == a + (b + (c + r))
  {}

  lemma Opened(open: string, parts: seq<string>, close: string, r: string)
    ensures open + Joined(parts) + close + r == open + (Body(parts, close) + r)
  {
    JoinedBody(parts, close);
    Regrouped(open, Joined(parts), close, r);
  }

  lemma TailBody(parts: seq<string>, close: string, r: string)
    requires parts != []
    ensures Tail(parts, close) + r == "," + (Body(parts, close) + r)
    ensures Body(parts, close) + r == parts[0] + (Tail(parts[1..], close) + r)
  {}

  function Lead(v: Value): char
    requires Plain(v)
  {
    match v
    case Null => 'n'
    case Bool(b) => if b then 't' else 'f'
    case Num(digits) => digits[0]
    case Str(_) => '\"'
    case Arr(_) => '['
    case Obj(_) => '{'
  }

  lemma TextLead(v: Value, r: string)
    requires Plain(v)
    ensures Text(v) != "" && (Text(v) + r)[0] == Lead(v)
  {}

  // What the reader makes of each kind of text.

  lemma WordReads(v: Value, r: string)
    requires v.Null? || v.Bool?
    ensures ReadValue(Text(v) + r) == Some((v, r))
  {
    var s := Text(v) + r;
    assert s[|Text(v)|..] == r && s[..|Text(v)|] == Text(v);
    assert s[0] == Text(v)[0];
  }

  lemma NumReads(v: Value, r: string)
    requires v.Num? && Plain(v) && Stops(r)
    ensures ReadValue(Text(v) + r) == Some((v, r))
  {
    var s := v.digits + r;
    NumberEnds(v.digits, r);
    assert s[0] == v.digits[0] && s[..|v.digits|] == v.digits && s[|v.digits|..] == r;
  }

  lemma StrReads(cs: string, r: string)
    ensures ReadValue(Quote(cs) + r) == Some((Str(cs), r))
  {
    var s, body := Quote(cs) + r, Escaped(cs) + ("\"" + r);
    Regrouped("\"", Escaped(cs), "\"", r);
    EscapedReads(cs, r);
    assert s == "\"" + body;
    assert s[0] == '\"' && s[1..] == body;
  }

  lemma ArrReads(body: string, items: seq<Value>, r: string)
    requires ReadItems(body, true) == Some((items, r))
    ensures ReadValue("[" + body) == Some((Arr(items), r))
  {
    assert ("[" + body)[1..] == body && ("[" + body)[0] == '[';
  }

  lemma ObjReads(body: string, members: seq<Member>, r: string)
    requires ReadMembers(body, true) == Some((members, r))
    ensures ReadValue("{" + body) == Some((Obj(members), r))
  {
    assert ("{" + body)[1..] == body && ("{" + body)[0] == '{';
  }

  lemma ItemReads(a: string, v: Value, rest: string, vs: seq<Value>, r: string)
    requires a != "" && a[0] != ']' && ReadValue(a) == Some((v, rest)) && ReadItems(rest, false) == Some((vs, r))
    ensures ReadItems(a, true) == Some(([v] + vs, r)) && ReadItems("," + a, false) == Some(([v] + vs, r))
  {
    assert ("," + a)[1..] == a;
  }

  lemma MemberReads(a: string, m: Member, rest: string, ms: seq<Member>, r: string)
    requires a != "" && a[0] != '}' && ReadMember(a) == Some((m, rest)) && ReadMembers(rest, false) == Some((ms, r))
    ensures ReadMembers(a, true) == Some(([m] + ms, r)) && ReadMembers("," + a, false) == Some(([m] + ms, r))
  {
    assert ("," + a)[1..] == a;
  }

  function Pair(m: Member): string {
    Quote(m.key) + ":" + Text(m.value)
  }

  lemma PairReads(m: Member, r: string)
    requires ReadValue(Text(m.value) + r) == Some((m.value, r))
    ensures ReadMember(Pair(m) + r) == Some((m, r)) && (Pair(m) + r)[0] == '\"'
  {
    var after := ":" + (Text(m.value) + r);
    EscapedReads(m.key, after);
    PairParts(m, r);
    assert (Pair(m) + r)[1..] == Escaped(m.key) + ("\"" + after) && after[1..] == Text(m.value) + r;
  }

  lemma PairParts(m: Member, r: string)
    ensures Pair(m) + r == "\"" + (Escaped(m.key) + ("\"" + (":" + (Text(m.value) + r))))
  {}

  /** The reader gives back the value a text was made of, and what follows the text. */
  lemma {:induction false} TextReads(v: Value, r: string)
    requires Plain(v) && Stops(r)
    ensures ReadValue(Text(v) + r) == Some((v, r))
    decreases v, 0
  {
    match v
    case Null => WordReads(v, r);
    case Bool(_) => WordReads(v, r);
    case Num(_) => NumReads(v, r);
    case Str(s) => StrReads(s, r);
    case Arr(items) =>
      Opened("[", Texts(items), "]", r);
      ItemsRead(items, r);
      ArrReads(Body(Texts(items), "]") + r, items, r);
    case Obj(members) =>
      Opened("{", Pairs(members), "}", r);
      MembersRead(members, r);
      ObjReads(Body(Pairs(members), "}") + r, members, r);
  }

  lemma ItemsGrow(items: seq<Value>, rest: string, r: string)
    requires items != [] && Plain(items[0])
    requires ReadValue(Text(items[0]) + rest) == Some((items[0], rest)) && ReadItems(rest, false) == Some((items[1..], r))
    ensures ReadItems(Text(items[0]) + rest, true) == Some((items, r))
    ensures ReadItems("," + (Text(items[0]) + rest), false) == Some((items, r))
  {
    TextLead(items[0], rest);
    ItemReads(Text(items[0]) + rest, items[0], rest, items[1..], r);
    assert items == [items[0]] + items[1..];
  }

  lemma MembersGrow(members: seq<Member>, rest: string, r: string)
    requires members != []
    requires ReadValue(Text(members[0].value) + rest) == Some((members[0].value, rest))
    requires ReadMembers(rest, false) == Some((members[1..], r))
    ensures ReadMembers(Pair(members[0]) + rest, true) == Some((members, r))
    ensures ReadMembers("," + (Pair(members[0]) + rest), false) == Some((members, r))
  {
    PairReads(members[0], rest);
    MemberReads(Pair(members[0]) + rest, members[0], rest, members[1..], r);
    assert members == [members[0]] + members[1..];
  }

  lemma {:induction false} ItemsRead(items: seq<Value>, r: string)
    requires PlainItems(items)
    ensures ReadItems(Body(Texts(items), "]") + r, true) == Some((items, r))
    ensures ReadItems(Tail(Texts(items), "]") + r, false) == Some((items, r))
    decreases items, 0
  {
    if items == [] {
      assert ("]" + r)[1..] == r;
    } else {
      var rest := Tail(Texts(items[1..]), "]") + r;
      TextsBody(items, r);
      TextReads(items[0], rest);
      ItemsRead(items[1..], r);
      ItemsGrow(items, rest, r);
    }
  }

  lemma PairsBody(members: seq<Member>, r: string)
    requires members != []
    ensures var rest := Tail(Pairs(members[1..]), "}") + r;
      && Stops(rest) && Body(Pairs(members), "}") + r == Pair(members[0]) + rest
      && Tail(Pairs(members), "}") + r == "," + (Pair(members[0]) + rest)
  {
    TailBody(Pairs(members), "}", r);
    TailStops(Pairs(members[1..]), "}", r);
    assert Pairs(members)[1..] == Pairs(members[1..]);
  }

  lemma TextsBody(items: seq<Value>, r: string)
    requires items != []
    ensures var rest := Tail(Texts(items[1..]), "]") + r;
      && Stops(rest) && Body(Texts(items), "]") + r == Text(items[0]) + rest
      && Tail(Texts(items), "]") + r == "," + (Text(items[0]) + rest)
  {
    TailBody(Texts(items), "]", r);
    TailStops(Texts(items[1..]), "]", r);
    assert Texts(items)[1..] == Texts(items[1..]);
  }

  lemma {:induction false} MembersRead(members: seq<Member>, r: string)
    requires PlainMembers(members)
    ensures ReadMembers(Body(Pairs(members), "}") + r, true) == Some((members, r))
    ensures ReadMembers(Tail(Pairs(members), "}") + r, false) == Some((members, r))
    decreases members, 0
  {
    if members == [] {
      assert ("}" + r)[1..] == r;
    } else {
      var rest := Tail(Pairs(members[1..]), "}") + r;
      PairsBody(members, r);
      TextReads(members[0].value, rest);
      MembersRead(members[1..], r);
      MembersGrow(members, rest, r);
    }
  }

  /** So the text of a value tells the value, and where it ends. */
  lemma TextPrefix(v: Value, w: Value, r: string, t: string)
    requires Plain(v) && Plain(w) && Stops(r) && Stops(t) && Text(v) + r == Text(w) + t
    ensures v == w && r == t
  {
    TextReads(v, r);
    TextReads(w, t);
  }

  // ---- the canonical text decides the cut payload

  /** Undefined is allowed; numbers are finite. */
  predicate Printable(v: Value)
    decreases v, 0
  {
    match v
    case Num(_) => Plain(v)
    case Arr(items) => PrintableItems(items)
    case Obj(members) => PrintableMembers(members)
    case _ => true
  }

  predicate PrintableItems(items: seq<Value>)
    decreases items, 0
  {
    items == [] || (Printable(items[0]) && PrintableItems(items[1..]))
  }

  predicate PrintableMembers(members: seq<Member>)
    decreases members, 0
  {
    members == [] || (Printable(members[0].value) && PrintableMembers(members[1..]))
  }

  lemma {:induction false} PrintableAt(members: seq<Member>, i: nat)
    requires PrintableMembers(members) && i < |members|
    ensures Printable(members[i].value)
  {
    if i > 0 { PrintableAt(members[1..], i - 1); }
  }

  lemma {:induction false} CutPlain(v: Value, keys: seq<string>)
    requires Printable(v) && !v.Undefined?
    ensures Plain(Cut(v, keys))
    decreases v, 0
  {
    match v
    case Arr(items) => CutItemsPlain(items, keys);
    case Obj(members) => CutMembersPlain(members, keys, keys);
    case _ =>
  }

  lemma {:induction false} CutItemsPlain(items: seq<Value>, keys: seq<string>)
    requires PrintableItems(items)
    ensures PlainItems(CutItems(items, keys))
    decreases items, 0
  {
    if items != [] {
      CutItemsPlain(items[1..], keys);
      if !items[0].Undefined? { CutPlain(items[0], keys); }
    }
  }

  lemma {:induction false} CutMembersPlain(members: seq<Member>, order: seq<string>, keys: seq<string>)
    requires PrintableMembers(members)
    ensures PlainMembers(CutMembers(members, order, keys))
    decreases members, |order|
  {
    if order != [] {
      CutMembersPlain(members, order[1..], keys);
      var i := IndexOf(members, order[0]);
      if i < |members| {
        PrintableAt(members, i);
        if !members[i].value.Undefined? { CutPlain(members[i].value, keys); }
      }
    }
  }

  function KeyList(payload: seq<Member>): seq<string> {
    Sorted(Keys(payload))
  }

  /** The payload as its canonical text shows it. */
  function Signed(payload: seq<Member>): seq<Member> {
    CutMembers(payload, KeyList(payload), KeyList(payload))
  }

  lemma CanonicalText(p: seq<Member>)
    ensures Canonical(p) == Text(Obj(Signed(p)))
  {
    MembersCut(p, KeyList(p), KeyList(p));
  }

  /** Two payloads have one canonical text exactly when their cut members are the same. */
  lemma CanonicalDecides(p: seq<Member>, q: seq<Member>)
    requires PlainMembers(Signed(p)) && PlainMembers(Signed(q))
    ensures Canonical(p) == Canonical(q) <==> Signed(p) == Signed(q)
  {
    CanonicalText(p);
    CanonicalText(q);
    if Canonical(p) == Canonical(q) { TextPrefix(Obj(Signed(p)), Obj(Signed(q)), "", ""); }
  }

  // ---- sorting depends on the set of keys alone

  /** `a` and `b` agree on their first `k` characters, and then `a` ends or has the lower code. */
  predicate Precedes(a: string, b: string, k: nat) {
    k <= |a| && k < |b| && a[..k] == b[..k] && (k < |a| ==> a[k] as nat < b[k] as nat)
  }

  /** The order of the keys is the one of their character codes. */
  lemma {:induction false} LessIff(a: string, b: string)
    ensures Less(a, b) <==> exists k :: 0 <= k <= |a| && Precedes(a, b, k)
  {
    if a == "" || b == "" || a[0] != b[0] {
      assert Less(a, b) ==> Precedes(a, b, 0);
      forall k | 0 < k <= |a| ensures !Precedes(a, b, k) {
        assert k <= |b| ==> a[..k][0] == a[0] && (b[..k][0] == b[0]);
      }
    } else {
      LessIff(a[1..], b[1..]);
      forall k | 0 <= k <= |a[1..]| ensures Precedes(a[1..], b[1..], k) <==> Precedes(a, b, k + 1) {
        assert a == [a[0]] + a[1..] && b == [b[0]] + b[1..];
        if k < |b[1..]| {
          assert a[..k + 1] == [a[0]] + a[1..][..k] && b[..k + 1] == [b[0]] + b[1..][..k];
          assert a[..k + 1][1..] == a[1..][..k] && b[..k + 1][1..] == b[1..][..k];
        }
      }
      if k :| 0 <= k <= |a| && Precedes(a, b, k) {
        assert k > 0;
        assert Precedes(a[1..], b[1..], k - 1);
      }
      if Less(a, b) {
        var k :| 0 <= k <= |a[1..]| && Precedes(a[1..], b[1..], k);
        assert Precedes(a, b, k + 1);
      }
    }
  }

  lemma {:induction false} LessTransitive(a: string, b: string, c: string)
    requires Less(a, b) && Less(b, c)
    ensures Less(a, c)
  {
    if a != "" && a[0] == b[0] && b[0] == c[0] { LessTransitive(a[1..], b[1..], c[1..]); }
  }

  lemma {:induction false} LessIrreflexive(a: string)
    ensures !Less(a, a)
  {
    if a != "" { LessIrreflexive(a[1..]); }
  }

  lemma {:induction false} LessTotal(a: string, b: string)
    ensures Less(a, b) || a == b || Less(b, a)
    ensures !(Less(a, b) && Less(b, a))
  {
    if a != "" && b != "" && a[0] == b[0] {
      LessTotal(a[1..], b[1..]);
      assert a == [a[0]] + a[1..] && b == [b[0]] + b[1..];
    }
  }

  ghost predicate Ascending(ks: seq<string>) {
    forall i, j :: 0 <= i < j < |ks| ==> Less(ks[i], ks[j])
  }

  lemma {:induction false} InsertAscending(key: string, ks: seq<string>)
    requires Ascending(ks) && key !in ks
    ensures Ascending(Insert(key, ks))
    ensures forall k :: k in Insert(key, ks) <==> k == key || k in ks
  {
    if ks != [] {
      LessTotal(key, ks[0]);
      if Less(key, ks[0]) {
        forall j | 0 < j < |ks| ensures Less(key, ks[j]) { LessTransitive(key, ks[0], ks[j]); }
      } else {
        InsertAscending(key, ks[1..]);
        var more := Insert(key, ks[1..]);
        forall j | 0 <= j < |more| ensures Less(ks[0], more[j]) {
          assert more[j] in more;
          if more[j] != key {
            var i :| 0 <= i < |ks[1..]| && ks[1..][i] == more[j];
            assert ks[i + 1] == more[j];
          }
        }
      }
    }
  }

  ghost predicate Distinct(ks: seq<string>) {
    forall i, j :: 0 <= i < j < |ks| ==> ks[i] != ks[j]
  }

  lemma {:induction false} SortedAscends(ks: seq<string>)
    requires Distinct(ks)
    ensures Ascending(Sorted(ks)) && forall k :: k in Sorted(ks) <==> k in ks
  {
    if ks != [] {
      SortedAscends(ks[1..]);
      assert ks[0] !in ks[1..];
      InsertAscending(ks[0], Sorted(ks[1..]));
    }
  }

  lemma FirstIsLeast(a: seq<string>, k: string)
    requires Ascending(a) && k in a
    ensures k == a[0] || Less(a[0], k)
  {
    var i :| 0 <= i < |a| && a[i] == k;
  }

  lemma {:induction false} AscendingUnique(a: seq<string>, b: seq<string>)
    requires Ascending(a) && Ascending(b) && forall k :: k in a <==> k in b
    ensures a == b
  {
    assert |a| > 0 ==> a[0] in b;
    assert |b| > 0 ==> b[0] in a;
    if a != [] {
      FirstIsLeast(a, b[0]);
      FirstIsLeast(b, a[0]);
      LessTotal(a[0], b[0]);
      forall k ensures k in a[1..] <==> k in b[1..] {
        HeadOut(a, k);
        HeadOut(b, k);
      }
      AscendingUnique(a[1..], b[1..]);
      assert a == [a[0]] + a[1..] && b == [b[0]] + b[1..];
    }
  }

  lemma HeadOut(a: seq<string>, k: string)
    requires Ascending(a) && a != []
    ensures k in a[1..] <==> k in a && k != a[0]
  {
    LessIrreflexive(k);
    if k in a && k != a[0] {
      var i :| 0 <= i < |a| && a[i] == k;
      assert a[1..][i - 1] == k;
    }
    if k in a[1..] {
      var i :| 0 <= i < |a[1..]| && a[1..][i] == k;
      assert Less(a[0], a[i + 1]);
    }
  }

  // ---- which payloads share a canonical text

  function Lookup(ms: seq<Member>, key: string): Option<Value> {
    if IndexOf(ms, key) < |ms| then Some(ms[IndexOf(ms, key)].value) else None
  }

  /** The member's value, unless it is undefined. */
  function Defined(ms: seq<Member>, key: string): Option<Value> {
    if Lookup(ms, key) == Some(Undefined) then None else Lookup(ms, key)
  }

  lemma {:induction false} KeysLookup(ms: seq<Member>, key: string)
    ensures key in Keys(ms) <==> Lookup(ms, key).Some?
  {
    if ms != [] {
      KeysLookup(ms[1..], key);
      assert IndexOf(ms, key) == if ms[0].key == key then 0 else 1 + IndexOf(ms[1..], key);
    }
  }

  lemma {:induction false} CutOne(ms: seq<Member>, order: seq<string>, keys: seq<string>)
    requires order != []
    ensures CutMembers(ms, order, keys) ==
      (if Defined(ms, order[0]).None? then [] else [Member(order[0], Cut(Defined(ms, order[0]).value, keys))])
      + CutMembers(ms, order[1..], keys)
  {}

  lemma {:induction false} CutKeysIn(ms: seq<Member>, order: seq<string>, keys: seq<string>)
    ensures forall i :: 0 <= i < |CutMembers(ms, order, keys)| ==> CutMembers(ms, order, keys)[i].key in order
  {
    if order != [] {
      CutKeysIn(ms, order[1..], keys);
      CutOne(ms, order, keys);
    }
  }

  /** The cut of what is defined under a key. */
  function CutUnder(ms: seq<Member>, k: string, keys: seq<string>): Option<Value> {
    if Defined(ms, k).Some? then Some(Cut(Defined(ms, k).value, keys)) else None
  }

  /** What a cut holds under each key of the list: the cut of what was defined there. */
  lemma {:induction false} CutLookup(ms: seq<Member>, order: seq<string>, keys: seq<string>, k: string)
    ensures Lookup(CutMembers(ms, order, keys), k) == if k in order then CutUnder(ms, k, keys) else None
  {
    if order != [] {
      var a := Defined(ms, order[0]);
      CutLookup(ms, order[1..], keys, k);
      CutOne(ms, order, keys);
      assert k in order <==> k == order[0] || k in order[1..];
      if a.Some? {
        LookupFirst(Member(order[0], Cut(a.value, keys)), CutMembers(ms, order[1..], keys), k);
      } else {
        assert [] + CutMembers(ms, order[1..], keys) == CutMembers(ms, order[1..], keys);
      }
    }
  }

  lemma {:induction false} CutItemAt(items: seq<Value>, keys: seq<string>, i: nat)
    requires i < |items|
    ensures |CutItems(items, keys)| == |items|
    ensures CutItems(items, keys)[i] == if items[i].Undefined? then Null else Cut(items[i], keys)
  {
    if |items| > 1 { CutItemAt(items[1..], keys, if i > 0 then i - 1 else 0); }
  }

  lemma {:induction false} CutAscends(ms: seq<Member>, order: seq<string>, keys: seq<string>)
    requires Ascending(order)
    ensures Ascending(Keys(CutMembers(ms, order, keys))) && forall k :: k in Keys(CutMembers(ms, order, keys)) ==> k in order
  {
    if order != [] {
      CutAscends(ms, order[1..], keys);
      CutOne(ms, order, keys);
      var rest := CutMembers(ms, order[1..], keys);
      var a := Defined(ms, order[0]);
      if a.Some? {
        MemberFirst(Member(order[0], Cut(a.value, keys)), rest);
        forall j | 0 <= j < |Keys(rest)| ensures Less(order[0], Keys(rest)[j]) {
          assert Keys(rest)[j] in Keys(rest);
          HeadOut(order, Keys(rest)[j]);
          FirstIsLeast(order, Keys(rest)[j]);
        }
      } else {
        assert [] + rest == rest;
      }
    }
  }

  /** Cutting two objects by key lists gives the same members exactly when the same keys are defined and
      their cut values agree. */
  lemma {:induction false} CutsAgree(ms: seq<Member>, ns: seq<Member>, order: seq<string>, keys: seq<string>, others: seq<string>)
    requires Ascending(order)
    ensures CutMembers(ms, order, keys) == CutMembers(ns, order, others) <==>
      forall i :: 0 <= i < |order| ==> AgreeAt(ms, ns, order[i], keys, others)
  {
    if order != [] {
      var a, b := Defined(ms, order[0]), Defined(ns, order[0]);
      var x, y := CutMembers(ms, order[1..], keys), CutMembers(ns, order[1..], others);
      CutsAgree(ms, ns, order[1..], keys, others);
      CutOne(ms, order, keys);
      CutOne(ns, order, others);
      CutKeysIn(ms, order[1..], keys);
      CutKeysIn(ns, order[1..], others);
      HeadOut(order, order[0]);
      assert AgreeAt(ms, ns, order[0], keys, others) <==>
        (a.None? && b.None?) || (a.Some? && b.Some? && Cut(a.value, keys) == Cut(b.value, others));
      assert forall i :: 0 <= i < |order[1..]| ==> order[1..][i] == order[i + 1];
      HeadsAgree(a, b, order[0], x, y, keys, others);
      assert (forall i :: 0 <= i < |order| ==> AgreeAt(ms, ns, order[i], keys, others)) <==>
        AgreeAt(ms, ns, order[0], keys, others) && forall i :: 0 <= i < |order[1..]| ==> AgreeAt(ms, ns, order[1..][i], keys, others);
    }
  }

  ghost predicate AgreeAt(ms: seq<Member>, ns: seq<Member>, key: string, keys: seq<string>, others: seq<string>) {
    var a, b := Defined(ms, key), Defined(ns, key);
    if a.Some? && b.Some? then Cut(a.value, keys) == Cut(b.value, others) else a.None? && b.None?
  }

  lemma HeadsAgree(a: Option<Value>, b: Option<Value>, key: string, x: seq<Member>, y: seq<Member>, keys: seq<string>, others: seq<string>)
    requires forall i :: 0 <= i < |x| ==> x[i].key != key
    requires forall i :: 0 <= i < |y| ==> y[i].key != key
    ensures (if a.None? then [] else [Member(key, Cut(a.value, keys))]) + x == (if b.None? then [] else [Member(key, Cut(b.value, others))]) + y
      <==> x == y && if a.Some? && b.Some? then Cut(a.value, keys) == Cut(b.value, others) else a.None? && b.None?
  {
    var s := (if a.None? then [] else [Member(key, Cut(a.value, keys))]) + x;
    var t := (if b.None? then [] else [Member(key, Cut(b.value, others))]) + y;
    if s == t {
      assert a.Some? ==> s[0].key == key;
      assert b.Some? ==> t[0].key == key;
      assert x == if a.None? then s else s[1..];
      assert y == if b.None? then t else t[1..];
    }
  }

  /** A payload as code builds it: one value a key, numbers finite. */
  ghost predicate Payload(p: seq<Member>) {
    Distinct(Keys(p)) && PrintableMembers(p)
  }

  ghost predicate AllDefined(p: seq<Member>) {
    forall k :: Lookup(p, k) != Some(Undefined)
  }

  lemma KeyListAscends(p: seq<Member>)
    requires Distinct(Keys(p))
    ensures Ascending(KeyList(p)) && forall k :: k in KeyList(p) <==> Lookup(p, k).Some?
  {
    SortedAscends(Keys(p));
    forall k ensures k in KeyList(p) <==> Lookup(p, k).Some? { KeysLookup(p, k); }
  }

  lemma {:induction false} CutKeys(ms: seq<Member>, order: seq<string>, keys: seq<string>)
    requires forall i :: 0 <= i < |order| ==> Defined(ms, order[i]).Some?
    ensures Keys(CutMembers(ms, order, keys)) == order
  {
    if order != [] {
      assert forall i :: 0 <= i < |order[1..]| ==> order[1..][i] == order[i + 1];
      CutKeys(ms, order[1..], keys);
      CutOne(ms, order, keys);
      var all := CutMembers(ms, order, keys);
      assert all[1..] == CutMembers(ms, order[1..], keys);
    }
  }

  /** What a peer that parses the canonical text finds: one object whose keys come in the order of their codes,
      and hold the payload's defined values, cut down to the payload's own keys. */
  lemma CanonicalReads(p: seq<Member>)
    requires Payload(p)
    ensures ReadValue(Canonical(p)) == Some((Obj(Signed(p)), ""))
    ensures Ascending(Keys(Signed(p)))
    ensures forall k :: Lookup(Signed(p), k) == CutUnder(p, k, KeyList(p))
  {
    KeyListAscends(p);
    CanonicalText(p);
    CutMembersPlain(p, KeyList(p), KeyList(p));
    TextReads(Obj(Signed(p)), "");
    assert Canonical(p) + "" == Canonical(p);
    CutAscends(p, KeyList(p), KeyList(p));
    forall k ensures Lookup(Signed(p), k) == CutUnder(p, k, KeyList(p)) {
      CutLookup(p, KeyList(p), KeyList(p), k);
    }
  }

  ghost predicate SameKeys(p: seq<Member>, q: seq<Member>) {
    forall k :: Lookup(p, k).Some? <==> Lookup(q, k).Some?
  }

  ghost predicate AgreeOn(p: seq<Member>, q: seq<Member>, keys: seq<string>) {
    forall k :: Lookup(p, k).Some? && Lookup(q, k).Some? ==> Cut(Lookup(p, k).value, keys) == Cut(Lookup(q, k).value, keys)
  }

  lemma SignedKeys(p: seq<Member>)
    requires Distinct(Keys(p)) && AllDefined(p)
    ensures Keys(Signed(p)) == KeyList(p)
  {
    KeyListAscends(p);
    var keys := KeyList(p);
    forall i | 0 <= i < |keys| ensures Defined(p, keys[i]).Some? { assert keys[i] in keys; }
    CutKeys(p, keys, keys);
  }

  lemma SameSigned(p: seq<Member>, q: seq<Member>)
    requires Distinct(Keys(p)) && AllDefined(p) && AllDefined(q) && SameKeys(p, q) && KeyList(p) == KeyList(q)
    ensures Signed(p) == Signed(q) <==> AgreeOn(p, q, KeyList(p))
  {
    var keys := KeyList(p);
    KeyListAscends(p);
    CutsAgree(p, q, keys, keys, keys);
    forall k | Lookup(p, k).Some? ensures exists i :: 0 <= i < |keys| && keys[i] == k { assert k in keys; }
    forall i | 0 <= i < |keys| ensures Lookup(p, keys[i]).Some? { assert keys[i] in keys; }
    forall k | Lookup(p, k).Some?
      ensures AgreeAt(p, q, k, keys, keys) <==> Cut(Lookup(p, k).value, keys) == Cut(Lookup(q, k).value, keys)
    {
      assert Defined(p, k) == Lookup(p, k) && Defined(q, k) == Lookup(q, k);
    }
  }

  /** Whatever the key order: two payloads without undefined members have one canonical text exactly when
      they have the same keys and agree, key by key, on their values cut down to those key names. */
  lemma CanonicalExactly(p: seq<Member>, q: seq<Member>)
    requires Payload(p) && Payload(q) && AllDefined(p) && AllDefined(q)
    ensures Canonical(p) == Canonical(q) <==> SameKeys(p, q) && AgreeOn(p, q, KeyList(p))
  {
    KeyListAscends(p);
    KeyListAscends(q);
    CutMembersPlain(p, KeyList(p), KeyList(p));
    CutMembersPlain(q, KeyList(q), KeyList(q));
    CanonicalDecides(p, q);
    SignedKeys(p);
    SignedKeys(q);
    if SameKeys(p, q) {
      AscendingUnique(KeyList(p), KeyList(q));
      SameSigned(p, q);
    }
  }

  // ---- a frame on the wire

  /** `w` is what JSON.parse gives back of the text JSON.stringify prints for `v`: undefined members are
      gone, undefined items are null, and objects may hold their members in another order. */
  ghost predicate Returned(v: Value, w: Value)
    decreases v
  {
    match v
    case Undefined => false
    case Arr(items) => w.Arr? && ReturnedItems(items, w.items)
    case Obj(members) => w.Obj? && ReturnedMembers(members, w.members)
    case _ => w == v
  }

  ghost predicate ReturnedItems(items: seq<Value>, others: seq<Value>)
    decreases items
  {
    if items == [] then others == []
    else
      && others != []
      && (if items[0].Undefined? then others[0] == Null else Returned(items[0], others[0]))
      && ReturnedItems(items[1..], others[1..])
  }

  ghost predicate ReturnedMembers(ms: seq<Member>, ns: seq<Member>)
    decreases ms
  {
    forall k ::
      var i, j := IndexOf(ms, k), IndexOf(ns, k);
      && (i < |ms| && !ms[i].value.Undefined? <==> j < |ns|)
      && (i < |ms| && j < |ns| && !ms[i].value.Undefined? ==> Returned(ms[i].value, ns[j].value))
  }

  ghost predicate ReturnedAt(ms: seq<Member>, ns: seq<Member>, k: string) {
    && (Defined(ms, k).Some? <==> Lookup(ns, k).Some?)
    && (Defined(ms, k).Some? && Lookup(ns, k).Some? ==> Returned(Defined(ms, k).value, Lookup(ns, k).value))
  }

  lemma ReturnedByKey(ms: seq<Member>, ns: seq<Member>)
    ensures ReturnedMembers(ms, ns) <==> forall k :: ReturnedAt(ms, ns, k)
  {
    if forall k :: ReturnedAt(ms, ns, k) {
      forall k
        ensures var i, j := IndexOf(ms, k), IndexOf(ns, k);
          && (i < |ms| && !ms[i].value.Undefined? <==> j < |ns|)
          && (i < |ms| && j < |ns| && !ms[i].value.Undefined? ==> Returned(ms[i].value, ns[j].value))
      {
        assert ReturnedAt(ms, ns, k);
      }
    }
  }

  /** Printing and parsing change no cut value. */
  lemma {:induction false} ReturnedCut(v: Value, w: Value, keys: seq<string>)
    requires Returned(v, w)
    ensures Cut(v, keys) == Cut(w, keys) && !w.Undefined?
    decreases v, 0
  {
    match v
    case Arr(items) => ReturnedCutItems(items, w.items, keys);
    case Obj(members) => ReturnedCutMembers(members, w.members, keys, keys);
    case _ =>
  }

  lemma {:induction false} ReturnedCutItems(items: seq<Value>, others: seq<Value>, keys: seq<string>)
    requires ReturnedItems(items, others)
    ensures CutItems(items, keys) == CutItems(others, keys)
    decreases items, 0
  {
    if items != [] {
      ReturnedCutItems(items[1..], others[1..], keys);
      if !items[0].Undefined? { ReturnedCut(items[0], others[0], keys); }
    }
  }

  lemma {:induction false} ReturnedCutMembers(ms: seq<Member>, ns: seq<Member>, order: seq<string>, keys: seq<string>)
    requires ReturnedMembers(ms, ns)
    ensures CutMembers(ms, order, keys) == CutMembers(ns, order, keys)
    decreases ms, |order|
  {
    if order != [] {
      ReturnedCutMembers(ms, ns, order[1..], keys);
      var i, j := IndexOf(ms, order[0]), IndexOf(ns, order[0]);
      if i < |ms| && !ms[i].value.Undefined? { ReturnedCut(ms[i].value, ns[j].value, keys); }
    }
  }

  function Frame(p: seq<Member>, kind: string, sig: string): seq<Member> {
    [Member("type", Str(kind))] + p + [Member("sig", Str(sig))]
  }

  /** The received frame without its signature and type. */
  function Rest(f: seq<Member>): seq<Member> {
    if f == [] then [] else (if f[0].key == "sig" || f[0].key == "type" then [] else [f[0]]) + Rest(f[1..])
  }

  function SignPayload(mac: (string, string) -> string, secret: string, p: seq<Member>): string {
    mac(secret, Canonical(p))
  }

  function VerifyPayload(mac: (string, string) -> string, secret: string, p: seq<Member>, sig: string): bool {
    SignPayload(mac, secret, p) == sig
  }

  lemma LookupFirst(m: Member, ms: seq<Member>, k: string)
    ensures Lookup([m] + ms, k) == if m.key == k then Some(m.value) else Lookup(ms, k)
  {
    assert ([m] + ms)[1..] == ms;
    assert IndexOf([m] + ms, k) == if m.key == k then 0 else 1 + IndexOf(ms, k);
  }

  lemma {:induction false} LookupConcat(a: seq<Member>, b: seq<Member>, k: string)
    ensures Lookup(a + b, k) == if Lookup(a, k).Some? then Lookup(a, k) else Lookup(b, k)
  {
    if a == [] {
      assert a + b == b;
    } else {
      LookupConcat(a[1..], b, k);
      LookupFirst(a[0], a[1..], k);
      LookupFirst(a[0], a[1..] + b, k);
      assert [a[0]] + a[1..] == a && [a[0]] + (a[1..] + b) == a + b;
    }
  }

  lemma FrameLookup(p: seq<Member>, kind: string, sig: string, k: string)
    requires Lookup(p, "sig").None? && Lookup(p, "type").None?
    ensures Lookup(Frame(p, kind, sig), k) ==
      if k == "type" then Some(Str(kind)) else if k == "sig" then Some(Str(sig)) else Lookup(p, k)
  {
    var last := [Member("sig", Str(sig))];
    LookupConcat(p, last, k);
    LookupFirst(Member("type", Str(kind)), p + last, k);
    LookupFirst(last[0], [], k);
    assert last == [last[0]] + [];
    assert Frame(p, kind, sig) == [Member("type", Str(kind))] + (p + last);
  }

  lemma {:induction false} RestLookup(f: seq<Member>, k: string)
    ensures Lookup(Rest(f), k) == if k == "sig" || k == "type" then None else Lookup(f, k)
    ensures k in Keys(Rest(f)) ==> k in Keys(f)
  {
    if f != [] {
      RestLookup(f[1..], k);
      LookupFirst(f[0], f[1..], k);
      LookupFirst(f[0], Rest(f[1..]), k);
      assert [f[0]] + f[1..] == f;
      if f[0].key == "sig" || f[0].key == "type" {
        assert Rest(f) == Rest(f[1..]);
      } else {
        assert Rest(f) == [f[0]] + Rest(f[1..]);
      }
    }
  }

  lemma {:induction false} RestDistinct(f: seq<Member>)
    requires Distinct(Keys(f))
    ensures Distinct(Keys(Rest(f)))
  {
    if f != [] {
      assert Keys(f)[1..] == Keys(f[1..]);
      assert forall i :: 0 <= i < |Keys(f[1..])| ==> Keys(f[1..])[i] == Keys(f)[i + 1] && Keys(f)[i + 1] != Keys(f)[0];
      RestDistinct(f[1..]);
      RestLookup(f[1..], f[0].key);
      var r := Rest(f[1..]);
      if f[0].key != "sig" && f[0].key != "type" {
        assert Rest(f)[1..] == r && Keys(Rest(f)) == [f[0].key] + Keys(r);
        assert f[0].key !in Keys(r);
      } else {
        assert Rest(f) == r;
      }
    }
  }

  /** Stripping the received frame gives back the payload. */
  lemma RestReturned(p: seq<Member>, kind: string, sig: string, f: seq<Member>)
    requires Lookup(p, "sig").None? && Lookup(p, "type").None?
    requires ReturnedMembers(Frame(p, kind, sig), f)
    ensures ReturnedMembers(p, Rest(f)) && Lookup(f, "sig") == Some(Str(sig))
  {
    ReturnedByKey(Frame(p, kind, sig), f);
    forall k ensures ReturnedAt(p, Rest(f), k) {
      FrameLookup(p, kind, sig, k);
      RestLookup(f, k);
      assert ReturnedAt(Frame(p, kind, sig), f, k);
    }
    ReturnedByKey(p, Rest(f));
    FrameLookup(p, kind, sig, "sig");
    assert ReturnedAt(Frame(p, kind, sig), f, "sig");
  }

  // ---- undefined top-level members

  /** Some object that the text shows has a defined member named in `gone`. */
  predicate Mentions(v: Value, keys: seq<string>, gone: set<string>)
    decreases v, 0
  {
    match v
    case Arr(items) => MentionsItems(items, keys, gone)
    case Obj(members) => MentionsMembers(members, keys, keys, gone)
    case _ => false
  }

  predicate MentionsItems(items: seq<Value>, keys: seq<string>, gone: set<string>)
    decreases items, 0
  {
    items != [] && (Mentions(items[0], keys, gone) || MentionsItems(items[1..], keys, gone))
  }

  predicate MentionsMembers(members: seq<Member>, order: seq<string>, keys: seq<string>, gone: set<string>)
    decreases members, |order|
  {
    order != [] &&
    var i := IndexOf(members, order[0]);
    || (i < |members| && !members[i].value.Undefined? && (order[0] in gone || Mentions(members[i].value, keys, gone)))
    || MentionsMembers(members, order[1..], keys, gone)
  }

  function KeptKeys(keys: seq<string>, gone: set<string>): seq<string> {
    if keys == [] then [] else (if keys[0] in gone then [] else [keys[0]]) + KeptKeys(keys[1..], gone)
  }

  lemma {:induction false} KeptAscends(keys: seq<string>, gone: set<string>)
    requires Ascending(keys)
    ensures Ascending(KeptKeys(keys, gone)) && forall k :: k in KeptKeys(keys, gone) <==> k in keys && k !in gone
  {
    if keys != [] {
      KeptAscends(keys[1..], gone);
      var more := KeptKeys(keys[1..], gone);
      forall k ensures k in keys[1..] <==> k in keys && k != keys[0] { HeadOut(keys, k); }
      if keys[0] !in gone {
        forall j | 0 <= j < |more| ensures Less(keys[0], more[j]) {
          assert more[j] in more;
          FirstIsLeast(keys, more[j]);
        }
      }
    }
  }

  /** Dropping keys from the list changes a cut exactly when one of them is mentioned. */
  lemma {:induction false} FewerKeys(v: Value, keys: seq<string>, gone: set<string>)
    requires Ascending(keys)
    ensures Cut(v, keys) == Cut(v, KeptKeys(keys, gone)) <==> !Mentions(v, keys, gone)
    decreases v, 0
  {
    match v
    case Arr(items) => FewerKeysItems(items, keys, gone);
    case Obj(members) => FewerKeysMembers(members, keys, keys, gone);
    case _ =>
  }

  lemma {:induction false} FewerKeysItems(items: seq<Value>, keys: seq<string>, gone: set<string>)
    requires Ascending(keys)
    ensures CutItems(items, keys) == CutItems(items, KeptKeys(keys, gone)) <==> !MentionsItems(items, keys, gone)
    decreases items, 0
  {
    if items != [] {
      var few := KeptKeys(keys, gone);
      FewerKeys(items[0], keys, gone);
      FewerKeysItems(items[1..], keys, gone);
      var a, b := CutItems(items, keys), CutItems(items, few);
      assert a[1..] == CutItems(items[1..], keys) && b[1..] == CutItems(items[1..], few);
      assert a == b <==> a[0] == b[0] && a[1..] == b[1..] by {
        assert a == [a[0]] + a[1..] && b == [b[0]] + b[1..];
      }
    }
  }

  lemma {:induction false} FewerKeysMembers(ms: seq<Member>, order: seq<string>, keys: seq<string>, gone: set<string>)
    requires Ascending(order) && Ascending(keys)
    ensures CutMembers(ms, order, keys) == CutMembers(ms, KeptKeys(order, gone), KeptKeys(keys, gone))
      <==> !MentionsMembers(ms, order, keys, gone)
    decreases ms, |order|
  {
    if order != [] {
      var few, key := KeptKeys(keys, gone), order[0];
      var a := Defined(ms, key);
      var b := if key in gone then None else a;
      var x, y := CutMembers(ms, order[1..], keys), CutMembers(ms, KeptKeys(order[1..], gone), few);
      FewerKeysMembers(ms, order[1..], keys, gone);
      var i := IndexOf(ms, key);
      if i < |ms| { FewerKeys(ms[i].value, keys, gone); }
      CutOne(ms, order, keys);
      CutKeysIn(ms, order[1..], keys);
      CutKeysIn(ms, KeptKeys(order[1..], gone), few);
      KeptAscends(order[1..], gone);
      HeadOut(order, key);
      HeadsAgree(a, b, key, x, y, keys, few);
      CutKept(ms, order, gone, few);
    }
  }

  lemma CutKept(ms: seq<Member>, order: seq<string>, gone: set<string>, few: seq<string>)
    requires order != []
    ensures CutMembers(ms, KeptKeys(order, gone), few) ==
      (var b := if order[0] in gone then None else Defined(ms, order[0]);
       if b.None? then [] else [Member(order[0], Cut(b.value, few))])
      + CutMembers(ms, KeptKeys(order[1..], gone), few)
  {
    var rest := KeptKeys(order[1..], gone);
    if order[0] in gone {
      assert KeptKeys(order, gone) == rest;
    } else {
      assert KeptKeys(order, gone)[1..] == rest;
      CutOne(ms, KeptKeys(order, gone), few);
    }
  }

  /** The top-level keys that hold undefined. */
  function Gone(p: seq<Member>): set<string> {
    set k | k in Keys(p) && Lookup(p, k) == Some(Undefined)
  }

  lemma ReceivedKeys(p: seq<Member>, r: seq<Member>)
    requires Distinct(Keys(p)) && Distinct(Keys(r)) && ReturnedMembers(p, r)
    ensures KeyList(r) == KeptKeys(KeyList(p), Gone(p))
  {
    KeyListAscends(p);
    KeyListAscends(r);
    KeptAscends(KeyList(p), Gone(p));
    ReturnedByKey(p, r);
    forall k ensures k in KeyList(r) <==> k in KeptKeys(KeyList(p), Gone(p)) {
      assert ReturnedAt(p, r, k);
      KeysLookup(p, k);
    }
    AscendingUnique(KeyList(r), KeptKeys(KeyList(p), Gone(p)));
  }

  /** A payload that went over the wire has the canonical text it was signed over exactly when no object in
      it mentions a top-level key that held undefined. */
  lemma WireKeepsCanonical(p: seq<Member>, r: seq<Member>)
    requires Payload(p) && Distinct(Keys(r)) && ReturnedMembers(p, r)
    ensures Canonical(p) == Canonical(r) <==> !MentionsMembers(p, KeyList(p), KeyList(p), Gone(p))
  {
    var keys, few := KeyList(p), KeyList(r);
    KeyListAscends(p);
    ReceivedKeys(p, r);
    FewerKeysMembers(p, keys, keys, Gone(p));
    ReturnedCutMembers(p, r, few, few);
    CutMembersPlain(p, keys, keys);
    CutMembersPlain(p, few, few);
    CanonicalDecides(p, r);
  }

  lemma {:induction false} NothingGone(v: Value, keys: seq<string>)
    ensures !Mentions(v, keys, {})
    decreases v, 0
  {
    match v
    case Arr(items) => NothingGoneItems(items, keys);
    case Obj(members) => NothingGoneMembers(members, keys, keys);
    case _ =>
  }

  lemma {:induction false} NothingGoneItems(items: seq<Value>, keys: seq<string>)
    ensures !MentionsItems(items, keys, {})
    decreases items, 0
  {
    if items != [] {
      NothingGone(items[0], keys);
      NothingGoneItems(items[1..], keys);
    }
  }

  lemma {:induction false} NothingGoneMembers(ms: seq<Member>, order: seq<string>, keys: seq<string>)
    ensures !MentionsMembers(ms, order, keys, {})
    decreases ms, |order|
  {
    if order != [] {
      var i := IndexOf(ms, order[0]);
      if i < |ms| { NothingGone(ms[i].value, keys); }
      NothingGoneMembers(ms, order[1..], keys);
    }
  }

  predicate Flat(v: Value) {
    !v.Arr? && !v.Obj?
  }

  ghost predicate AllFlat(p: seq<Member>) {
    forall k :: Lookup(p, k).Some? ==> Flat(Lookup(p, k).value)
  }

  /** Without arrays and objects nothing is mentioned but by its own key, and a key that is gone holds nothing. */
  lemma {:induction false} FlatMentionsNothing(p: seq<Member>, order: seq<string>, keys: seq<string>)
    requires AllFlat(p)
    ensures !MentionsMembers(p, order, keys, Gone(p))
    decreases |order|
  {
    if order != [] {
      FlatMentionsNothing(p, order[1..], keys);
      var i := IndexOf(p, order[0]);
      if i < |p| {
        assert Lookup(p, order[0]) == Some(p[i].value);
        assert !Mentions(p[i].value, keys, Gone(p));
      }
    }
  }

  /** A frame signed, printed, parsed and stripped of `sig` and `type` verifies whenever no top-level value
      of its payload is undefined, or none is an array or an object. */
  lemma SignedFrameVerifies(mac: (string, string) -> string, secret: string, p: seq<Member>, kind: string, f: seq<Member>)
    requires Payload(p) && (AllDefined(p) || AllFlat(p)) && Lookup(p, "sig").None? && Lookup(p, "type").None?
    requires Distinct(Keys(f)) && ReturnedMembers(Frame(p, kind, SignPayload(mac, secret, p)), f)
    ensures Lookup(f, "sig").Some? && Lookup(f, "sig").value.Str?
    ensures VerifyPayload(mac, secret, Rest(f), Lookup(f, "sig").value.s)
  {
    var sig := SignPayload(mac, secret, p);
    RestReturned(p, kind, sig, f);
    RestDistinct(f);
    WireKeepsCanonical(p, Rest(f));
    if AllDefined(p) {
      assert Gone(p) == {};
      NothingGoneMembers(p, KeyList(p), KeyList(p));
    } else {
      FlatMentionsNothing(p, KeyList(p), KeyList(p));
    }
  }

  /** What the agent signs of a reply: the request's id, whether it succeeded, and its result or its error. */
  function Reply(id: Value, ok: bool, key: string, v: Value): seq<Member> {
    [Member("reqId", id), Member("ok", Bool(ok)), Member(key, v)]
  }

  lemma ReplyLookup(id: Value, ok: bool, key: string, v: Value, k: string)
    ensures Lookup(Reply(id, ok, key, v), k) ==
      if k == "reqId" then Some(id) else if k == "ok" then Some(Bool(ok)) else if k == key then Some(v) else None
  {
    var p := Reply(id, ok, key, v);
    assert p == [p[0]] + [p[1], p[2]];
    LookupFirst(p[0], [p[1], p[2]], k);
    LookupTwo(p[1], p[2], k);
  }

  lemma MemberFirst(m: Member, ms: seq<Member>)
    ensures Keys([m] + ms) == [m.key] + Keys(ms)
    ensures PrintableMembers([m] + ms) <==> Printable(m.value) && PrintableMembers(ms)
  {
    assert ([m] + ms)[1..] == ms;
  }

  lemma ReplyPayload(id: Value, ok: bool, key: string, v: Value)
    requires Printable(id) && Printable(v) && key != "reqId" && key != "ok"
    ensures Payload(Reply(id, ok, key, v))
  {
    var p := Reply(id, ok, key, v);
    assert p == [p[0]] + ([p[1]] + ([p[2]] + []));
    MemberFirst(p[2], []);
    MemberFirst(p[1], [p[2]] + []);
    MemberFirst(p[0], [p[1]] + ([p[2]] + []));
    assert Keys(p) == ["reqId", "ok", key];
  }

  /** Every reply of the agent verifies at the server, whatever the call returned, nothing at all included. */
  lemma ReplyVerifies(
    mac: (string, string) -> string, secret: string, id: Value, ok: bool, key: string, v: Value, kind: string, f: seq<Member>)
    requires Flat(id) && !id.Undefined? && Printable(id) && Printable(v) && (key == "result" || key == "error")
    requires Distinct(Keys(f))
    requires ReturnedMembers(Frame(Reply(id, ok, key, v), kind, SignPayload(mac, secret, Reply(id, ok, key, v))), f)
    ensures Lookup(f, "sig").Some? && Lookup(f, "sig").value.Str?
    ensures VerifyPayload(mac, secret, Rest(f), Lookup(f, "sig").value.s)
  {
    var p := Reply(id, ok, key, v);
    ReplyPayload(id, ok, key, v);
    forall k
      ensures Lookup(p, k) ==
        if k == "reqId" then Some(id) else if k == "ok" then Some(Bool(ok)) else if k == key then Some(v) else None
    {
      ReplyLookup(id, ok, key, v, k);
    }
    assert if v.Undefined? then AllFlat(p) else AllDefined(p);
    SignedFrameVerifies(mac, secret, p, kind, f);
  }

  /** Of any payload signPayload accepts: with a collision-free code the frame verifies exactly when no object
      of the payload mentions a top-level key that held undefined. */
  lemma SignedFrameVerifiesIff(mac: (string, string) -> string, secret: string, p: seq<Member>, kind: string, f: seq<Member>)
    requires forall s, a, b {:trigger mac(s, a), mac(s, b)} :: mac(s, a) == mac(s, b) ==> a == b
    requires Payload(p) && Lookup(p, "sig").None? && Lookup(p, "type").None?
    requires Distinct(Keys(f)) && ReturnedMembers(Frame(p, kind, SignPayload(mac, secret, p)), f)
    ensures VerifyPayload(mac, secret, Rest(f), SignPayload(mac, secret, p))
      <==> !MentionsMembers(p, KeyList(p), KeyList(p), Gone(p))
  {
    RestReturned(p, kind, SignPayload(mac, secret, p), f);
    RestDistinct(f);
    WireKeepsCanonical(p, Rest(f));
  }

  /** A payload with an undefined member whose key an object of it mentions. The agent builds none, but
      signPayload takes it. */
  const AMBIGUOUS: seq<Member> := [Member("error", Undefined), Member("result", Obj([Member("error", Null)]))]

  /** Its frame, as it is received. */
  function AmbiguousFrame(kind: string, sig: string): seq<Member> {
    [Member("type", Str(kind)), Member("result", Obj([Member("error", Null)])), Member("sig", Str(sig))]
  }

  lemma LookupTwo(m: Member, n: Member, k: string)
    ensures Lookup([m, n], k) == if m.key == k then Some(m.value) else if n.key == k then Some(n.value) else None
  {
    assert [m, n] == [m] + [n] && [n] == [n] + [];
    LookupFirst(m, [n], k);
    LookupFirst(n, [], k);
  }

  lemma AmbiguousKeys()
    ensures Payload(AMBIGUOUS) && KeyList(AMBIGUOUS) == ["error", "result"] && Gone(AMBIGUOUS) == {"error"}
  {
    var p := AMBIGUOUS;
    var inner := Member("error", Null);
    assert p == [p[0]] + ([p[1]] + []) && [inner] + [] == [inner];
    MemberFirst(inner, []);
    MemberFirst(p[1], []);
    MemberFirst(p[0], [p[1]] + []);
    assert Keys(p) == ["error", "result"];
    assert Keys(p)[1..] == ["result"] && Sorted(["result"]) == ["result"];
    LessRest("error", "result");
    assert Insert("error", ["result"]) == ["error", "result"];
    forall k ensures Lookup(p, k) == if k == "error" then Some(Undefined) else if k == "result" then Some(p[1].value) else None {
      LookupTwo(p[0], p[1], k);
    }
  }

  lemma LessRest(a: string, b: string)
    requires a != "" && b != "" && a[0] < b[0]
    ensures Less(a, b)
  {}

  lemma AmbiguousMentions()
    ensures MentionsMembers(AMBIGUOUS, ["error", "result"], ["error", "result"], {"error"})
  {
    var keys, inner := ["error", "result"], [Member("error", Null)];
    assert IndexOf(inner, "error") == 0;
    assert MentionsMembers(inner, keys, keys, {"error"});
    assert Mentions(Obj(inner), keys, {"error"});
    assert keys[1..] == ["result"];
    assert AMBIGUOUS[1..][0].key == "result";
    assert IndexOf(AMBIGUOUS, "result") == 1;
  }

  lemma AmbiguousReturns(kind: string, sig: string)
    ensures Distinct(Keys(AmbiguousFrame(kind, sig))) && ReturnedMembers(Frame(AMBIGUOUS, kind, sig), AmbiguousFrame(kind, sig))
  {
    var p, f := AMBIGUOUS, AmbiguousFrame(kind, sig);
    assert f[1..] == [f[1], f[2]] && f[1..][1..] == [f[2]] && f[2..][1..] == [];
    assert Keys(f) == ["type"] + Keys(f[1..]) && Keys(f[1..]) == ["result"] + Keys(f[1..][1..]) && Keys([f[2]]) == ["sig"] + Keys([f[2]][1..]);
    assert Keys(f) == ["type", "result", "sig"];
    var inner := [Member("error", Null)];
    ReturnedMembersSame(inner);
    LookupTwo(p[0], p[1], "sig");
    LookupTwo(p[0], p[1], "type");
    forall k ensures ReturnedAt(Frame(p, kind, sig), f, k) {
      FrameLookup(p, kind, sig, k);
      LookupTwo(p[0], p[1], k);
      LookupFirst(f[0], [f[1], f[2]], k);
      LookupTwo(f[1], f[2], k);
      assert f == [f[0]] + [f[1], f[2]];
    }
    ReturnedByKey(Frame(p, kind, sig), f);
  }

  lemma ReturnedMembersSame(inner: seq<Member>)
    requires inner == [Member("error", Null)]
    ensures ReturnedMembers(inner, inner) && Returned(Obj(inner), Obj(inner))
  {
    assert Returned(Null, Null);
  }

  /** With any collision-free code and any secret, this payload is refused where it was signed for. */
  lemma UndefinedBreaksSignature(mac: (string, string) -> string, secret: string, kind: string)
    requires forall s, a, b {:trigger mac(s, a), mac(s, b)} :: mac(s, a) == mac(s, b) ==> a == b
    ensures var sig := SignPayload(mac, secret, AMBIGUOUS);
      && ReturnedMembers(Frame(AMBIGUOUS, kind, sig), AmbiguousFrame(kind, sig))
      && !VerifyPayload(mac, secret, Rest(AmbiguousFrame(kind, sig)), sig)
  {
    var p := AMBIGUOUS;
    var sig := SignPayload(mac, secret, p);
    AmbiguousKeys();
    AmbiguousMentions();
    AmbiguousReturns(kind, sig);
    LookupTwo(p[0], p[1], "sig");
    LookupTwo(p[0], p[1], "type");
    SignedFrameVerifiesIff(mac, secret, p, kind, AmbiguousFrame(kind, sig));
  }
}
