/** parseStatusV2 of rpc.js: reading `git status --porcelain=v2 -z --branch`, and what git prints. */
module StatusV2 {
  import opened Options

  const NUL: char := '\0'

  datatype Change = Change(path: string, status: string)

  datatype Status = Status(
    staged: seq<Change>, unstaged: seq<Change>, untracked: seq<Change>, branch: string, ahead: nat, behind: nat)

  const CLEAN: Status := Status([], [], [], "", 0, 0)

  // ---- JavaScript's string operations

  function Split(s: string, sep: char): (parts: seq<string>)
    ensures parts != []
  {
    if s == "" then [""]
    else if s[0] == sep then [""] + Split(s[1..], sep)
    else
      var rest := Split(s[1..], sep);
      [[s[0]] + rest[0]] + rest[1..]
  }

  function Join(parts: seq<string>, sep: char): string {
    if parts == [] then "" else if |parts| == 1 then parts[0] else parts[0] + [sep] + Join(parts[1..], sep)
  }

  /** `s.slice(n)`, of a string or a list. */
  function Slice<T>(s: seq<T>, n: nat): seq<T> {
    if n <= |s| then s[n..] else []
  }

  /** One character of a string; nothing where JavaScript has undefined. */
  function CharAt(s: string, i: nat): string {
    if i < |s| then [s[i]] else ""
  }

  // ---- the numbers of the branch.ab line

  predicate IsDigit(c: char) {
    '0' <= c <= '9'
  }

  function Digits(s: string): string {
    if s == "" || !IsDigit(s[0]) then "" else [s[0]] + Digits(s[1..])
  }

  function Number(s: string): nat {
    if s == "" then 0 else Number(s[..|s| - 1]) * 10 + if IsDigit(s[|s| - 1]) then s[|s| - 1] as nat - '0' as nat else 0
  }

  /** `\+(\d+) -(\d+)` at the first place it matches. */
  function MatchAb(s: string): Option<(nat, nat)> {
    if s == "" then None
    else if s[0] == '+' && MatchNumbers(s[1..]).Some? then MatchNumbers(s[1..])
    else MatchAb(s[1..])
  }

  function MatchNumbers(s: string): Option<(nat, nat)> {
    var a := Digits(s);
    var rest := Slice(s, |a|);
    var b := Digits(Slice(rest, 2));
    if a == "" || !(" -" <= rest) || b == "" then None else Some((Number(a), Number(b)))
  }

  // ---- the parser

  function Listed(list: seq<Change>, path: string, status: string): seq<Change> {
    if status == "." then list else list + [Change(path, status)]
  }

  const HEAD: string := "# branch.head "
  const AB: string := "# branch.ab "

  /** One record: the lists after it, and whether the next record belongs to it; None where the code throws. */
  function Line(rec: string, out: Status): Option<(Status, bool)> {
    if rec == "" then Some((out, false))
    else if HEAD <= rec then Some((out.(branch := rec[|HEAD|..]), false))
    else if AB <= rec then
      match MatchAb(rec)
      case None => Some((out, false))
      case Some((ahead, behind)) => Some((out.(ahead := ahead, behind := behind), false))
    else if "# " <= rec then Some((out, false))
    else if rec[0] == '?' then Some((out.(untracked := out.untracked + [Change(Slice(rec, 2), "U")]), false))
    else if rec[0] == '!' then Some((out, false))
    else if rec[0] == '1' || rec[0] == '2' then
      var f := Split(rec, ' ');
      if |f| < 2 then None
      else
        var path := Join(Slice(f, if rec[0] == '2' then 9 else 8), ' ');
        Some((out.(staged := Listed(out.staged, path, CharAt(f[1], 0)),
                   unstaged := Listed(out.unstaged, path, CharAt(f[1], 1))), rec[0] == '2'))
    else if rec[0] == 'u' then
      Some((out.(unstaged := out.unstaged + [Change(Join(Slice(Split(rec, ' '), 10), ' '), "C")]), false))
    else Some((out, false))
  }

  function Lines(recs: seq<string>, out: Status): Option<Status>
    decreases |recs|
  {
    if recs == [] then Some(out)
    else
      match Line(recs[0], out)
      case None => None
      case Some((next, skip)) => Lines(Slice(recs, if skip then 2 else 1), next)
  }

  /** Loops over the records by index; a rename's record takes the one after it along. */
  method ParseStatus(buf: string) returns (status: Option<Status>)
    ensures status == Lines(Split(buf, NUL), CLEAN)
  {
    var recs := Split(buf, NUL);
    var out := CLEAN;
    var i := 0;
    while i < |recs|
      invariant Lines(Slice(recs, i), out) == Lines(recs, CLEAN)
      decreases |recs| + 1 - i
    {
      var rec := recs[i];
      assert Slice(recs, i)[0] == rec;
      var step := Line(rec, out);
      if step.None? { return None; }
      assert Slice(Slice(recs, i), 1) == Slice(recs, i + 1) && Slice(Slice(recs, i), 2) == Slice(recs, i + 2);
      out := step.value.0;
      if step.value.1 { i := i + 1; }
      i := i + 1;
    }
    return Some(out);
  }

  // ---- what git prints

  datatype Entry =
    | Ordinary(x: char, y: char, meta: seq<string>, path: string)
    | Renamed(x: char, y: char, meta: seq<string>, path: string, orig: string)
    | Unmerged(x: char, y: char, meta: seq<string>, path: string)
    | Untracked(path: string)
    | Ignored(path: string)
    | Head(branch: string)
    | AheadBehind(ahead: nat, behind: nat)
    | Header(text: string)

  predicate Whole(s: string) {
    NUL !in s
  }

  predicate Field(s: string) {
    NUL !in s && ' ' !in s
  }

  predicate Proper(e: Entry) {
    match e
    case Ordinary(x, y, meta, path) => Field([x, y]) && |meta| == 6 && Fields(meta) && Whole(path)
    case Renamed(x, y, meta, path, orig) => Field([x, y]) && |meta| == 7 && Fields(meta) && Whole(path) && Whole(orig)
    case Unmerged(x, y, meta, path) => Field([x, y]) && |meta| == 8 && Fields(meta) && Whole(path)
    case Untracked(path) => Whole(path)
    case Ignored(path) => Whole(path)
    case Head(branch) => Whole(branch)
    case AheadBehind(_, _) => true
    case Header(text) => Whole(text) && !(HEAD <= "# " + text) && !(AB <= "# " + text)
  }

  predicate Fields(fs: seq<string>) {
    forall i :: 0 <= i < |fs| ==> Field(fs[i])
  }

  function Spaced(fs: seq<string>, path: string): string {
    if fs == [] then path else fs[0] + " " + Spaced(fs[1..], path)
  }

  function Decimal(n: nat): string {
    (if n < 10 then "" else Decimal(n / 10)) + [('0' as nat + n % 10) as char]
  }

  function RecordOf(e: Entry): string {
    match e
    case Ordinary(x, y, meta, path) => Spaced(["1", [x, y]] + meta, path)
    case Renamed(x, y, meta, path, _) => Spaced(["2", [x, y]] + meta, path)
    case Unmerged(x, y, meta, path) => Spaced(["u", [x, y]] + meta, path)
    case Untracked(path) => "? " + path
    case Ignored(path) => "! " + path
    case Head(branch) => "# branch.head " + branch
    case AheadBehind(ahead, behind) => "# branch.ab " + ("+" + (Decimal(ahead) + (" -" + Decimal(behind))))
    case Header(text) => "# " + text
  }

  function PrintOne(e: Entry): string {
    RecordOf(e) + [NUL] + if e.Renamed? then e.orig + [NUL] else ""
  }

  function Print(es: seq<Entry>): string {
    if es == [] then "" else PrintOne(es[0]) + Print(es[1..])
  }

  // ---- what it means

  function Mark(c: char, path: string): seq<Change> {
    if c == '.' then [] else [Change(path, [c])]
  }

  function StagedBy(e: Entry): seq<Change> {
    if e.Ordinary? || e.Renamed? then Mark(e.x, e.path) else []
  }

  function UnstagedBy(e: Entry): seq<Change> {
    if e.Ordinary? || e.Renamed? then Mark(e.y, e.path) else if e.Unmerged? then [Change(e.path, "C")] else []
  }

  function UntrackedBy(e: Entry): seq<Change> {
    if e.Untracked? then [Change(e.path, "U")] else []
  }

  function StagedOf(es: seq<Entry>): seq<Change> {
    if es == [] then [] else StagedBy(es[0]) + StagedOf(es[1..])
  }

  function UnstagedOf(es: seq<Entry>): seq<Change> {
    if es == [] then [] else UnstagedBy(es[0]) + UnstagedOf(es[1..])
  }

  function UntrackedOf(es: seq<Entry>): seq<Change> {
    if es == [] then [] else UntrackedBy(es[0]) + UntrackedOf(es[1..])
  }

  function BranchOf(es: seq<Entry>, before: string): string {
    if es == [] then before else BranchOf(es[1..], if es[0].Head? then es[0].branch else before)
  }

  function CountsOf(es: seq<Entry>, before: (nat, nat)): (nat, nat) {
    if es == [] then before
    else CountsOf(es[1..], if es[0].AheadBehind? then (es[0].ahead, es[0].behind) else before)
  }

  function StatusOf(es: seq<Entry>, before: Status): Status {
    var counts := CountsOf(es, (before.ahead, before.behind));
    Status(before.staged + StagedOf(es), before.unstaged + UnstagedOf(es), before.untracked + UntrackedOf(es),
           BranchOf(es, before.branch), counts.0, counts.1)
  }

  // ---- proofs: splitting

  lemma {:induction false} SplitFirst(a: string, sep: char, b: string)
    requires sep !in a
    ensures Split(a + [sep] + b, sep) == [a] + Split(b, sep)
  {
    if a == "" {
      assert a + [sep] + b == [sep] + b;
      assert ([sep] + b)[1..] == b;
    } else {
      SplitFirst(a[1..], sep, b);
      assert (a + [sep] + b)[1..] == a[1..] + [sep] + b;
      assert [a[0]] + a[1..] == a;
    }
  }

  lemma JoinLonger(c: char, rest: seq<string>, sep: char)
    requires rest != []
    ensures Join([[c] + rest[0]] + rest[1..], sep) == [c] + Join(rest, sep)
    ensures Join([""] + rest, sep) == [sep] + Join(rest, sep)
  {
    var more := [[c] + rest[0]] + rest[1..];
    assert more[1..] == rest[1..];
    assert ([""] + rest)[1..] == rest;
    if |rest| > 1 {
      assert [c] + rest[0] + [sep] + Join(rest[1..], sep) == [c] + (rest[0] + [sep] + Join(rest[1..], sep));
    }
  }

  lemma {:induction false} JoinSplit(s: string, sep: char)
    ensures Join(Split(s, sep), sep) == s
  {
    if s != "" {
      JoinSplit(s[1..], sep);
      JoinLonger(s[0], Split(s[1..], sep), sep);
      assert s == [s[0]] + s[1..];
    }
  }

  lemma Regroup<T>(a: T, b: seq<T>, c: seq<T>)
    ensures [a] + (b + c) == ([a] + b) + c
  {}

  lemma {:induction false} SplitSpaced(fs: seq<string>, path: string)
    requires Fields(fs)
    ensures Split(Spaced(fs, path), ' ') == fs + Split(path, ' ')
  {
    if fs != [] {
      var rest := Spaced(fs[1..], path);
      SplitSpaced(fs[1..], path);
      assert Field(fs[0]);
      SplitFirst(fs[0], ' ', rest);
      Regroup(fs[0], fs[1..], Split(path, ' '));
      assert fs == [fs[0]] + fs[1..];
    }
  }

  /** The path is what follows the fields, spaces and all. */
  lemma PathAfter(fs: seq<string>, path: string)
    requires Fields(fs)
    ensures Join(Slice(Split(Spaced(fs, path), ' '), |fs|), ' ') == path
    ensures |Split(Spaced(fs, path), ' ')| > |fs| && Split(Spaced(fs, path), ' ')[..|fs|] == fs
  {
    SplitSpaced(fs, path);
    JoinSplit(path, ' ');
  }

  // ---- proofs: numbers

  lemma {:induction false} DecimalDigits(n: nat)
    ensures Decimal(n) != "" && Number(Decimal(n)) == n && forall i :: 0 <= i < |Decimal(n)| ==> IsDigit(Decimal(n)[i])
  {
    var d := Decimal(n);
    if n >= 10 { DecimalDigits(n / 10); }
    assert d[..|d| - 1] == if n < 10 then "" else Decimal(n / 10);
  }

  lemma {:induction false} DigitsStop(d: string, r: string)
    requires forall i :: 0 <= i < |d| ==> IsDigit(d[i])
    requires r == "" || !IsDigit(r[0])
    ensures Digits(d + r) == d
  {
    if d == "" {
      assert d + r == r;
    } else {
      DigitsStop(d[1..], r);
      assert (d + r)[1..] == d[1..] + r;
      assert d == [d[0]] + d[1..];
    }
  }

  lemma {:induction false} MatchSkips(a: string, s: string)
    requires '+' !in a
    ensures MatchAb(a + s) == MatchAb(s)
  {
    if a == "" {
      assert a + s == s;
    } else {
      MatchSkips(a[1..], s);
      assert (a + s)[1..] == a[1..] + s;
      assert (a + s)[0] != '+';
    }
  }

  lemma NumbersRead(ahead: nat, behind: nat)
    ensures MatchNumbers(Decimal(ahead) + (" -" + Decimal(behind))) == Some((ahead, behind))
  {
    var a, b := Decimal(ahead), Decimal(behind);
    DecimalDigits(ahead);
    DecimalDigits(behind);
    DigitsStop(a, " -" + b);
    DigitsStop(b, "");
    assert b + "" == b;
    assert (a + (" -" + b))[|a|..] == " -" + b && (" -" + b)[2..] == b;
  }

  lemma NumbersMatch(ahead: nat, behind: nat)
    ensures MatchAb("# branch.ab " + ("+" + (Decimal(ahead) + (" -" + Decimal(behind))))) == Some((ahead, behind))
  {
    var s := Decimal(ahead) + (" -" + Decimal(behind));
    NumbersRead(ahead, behind);
    assert ("+" + s)[1..] == s;
    MatchSkips(AB, "+" + s);
  }

  // ---- proofs: one record

  /** The effect of one entry. */
  function Effect(e: Entry, out: Status): Status {
    Status(out.staged + StagedBy(e), out.unstaged + UnstagedBy(e), out.untracked + UntrackedBy(e),
           if e.Head? then e.branch else out.branch,
           if e.AheadBehind? then e.ahead else out.ahead, if e.AheadBehind? then e.behind else out.behind)
  }

  lemma Coded(kind: char, x: char, y: char, meta: seq<string>, path: string)
    requires Field([kind]) && Field([x, y]) && Fields(meta)
    ensures var rec := Spaced([[kind], [x, y]] + meta, path);
      var f := Split(rec, ' ');
      && rec != "" && rec[0] == kind && |f| >= 2 && f[1] == [x, y] && Join(Slice(f, 2 + |meta|), ' ') == path
  {
    var fs := [[kind], [x, y]] + meta;
    PathAfter(fs, path);
    var f := Split(Spaced(fs, path), ' ');
    assert f[1] == f[..|fs|][1] == fs[1];
    assert Spaced(fs, path)[0] == fs[0][0];
  }

  lemma ListedMarks(list: seq<Change>, path: string, x: char, y: char)
    ensures Listed(list, path, CharAt([x, y], 0)) == list + Mark(x, path)
    ensures Listed(list, path, CharAt([x, y], 1)) == list + Mark(y, path)
  {
    assert list + [] == list;
  }

  lemma LineChange(kind: char, e: Entry, out: Status)
    requires (e.Ordinary? && kind == '1') || (e.Renamed? && kind == '2')
    requires Proper(e)
    ensures Line(RecordOf(e), out) == Some((Effect(e, out), e.Renamed?))
  {
    Coded(kind, e.x, e.y, e.meta, e.path);
    ListedMarks(out.staged, e.path, e.x, e.y);
    ListedMarks(out.unstaged, e.path, e.x, e.y);
    assert out.untracked + [] == out.untracked;
    assert RecordOf(e) == Spaced([[kind], [e.x, e.y]] + e.meta, e.path);
    NoHeader(RecordOf(e));
  }

  lemma NoHeader(rec: string)
    requires rec != "" && rec[0] != '#'
    ensures !(HEAD <= rec) && !(AB <= rec) && !("# " <= rec)
  {
    assert HEAD[0] == '#' && AB[0] == '#' && "# "[0] == '#';
  }

  lemma Untouched(out: Status)
    ensures out.staged + [] == out.staged && out.unstaged + [] == out.unstaged && out.untracked + [] == out.untracked
  {}

  lemma LineUnmerged(e: Entry, out: Status)
    requires e.Unmerged? && Proper(e)
    ensures Line(RecordOf(e), out) == Some((Effect(e, out), false))
  {
    Coded('u', e.x, e.y, e.meta, e.path);
    NoHeader(RecordOf(e));
    Untouched(out);
  }

  lemma LineUntracked(e: Entry, out: Status)
    requires e.Untracked?
    ensures Line(RecordOf(e), out) == Some((Effect(e, out), false))
  {
    var rec := "? " + e.path;
    assert rec[0] == '?' && Slice(rec, 2) == e.path;
    NoHeader(rec);
    Untouched(out);
  }

  lemma LineIgnored(e: Entry, out: Status)
    requires e.Ignored?
    ensures Line(RecordOf(e), out) == Some((Effect(e, out), false))
  {
    var rec := "! " + e.path;
    assert rec[0] == '!';
    NoHeader(rec);
    Untouched(out);
  }

  lemma LineHeader(e: Entry, out: Status)
    requires (e.Head? || e.Header?) && Proper(e)
    ensures Line(RecordOf(e), out) == Some((Effect(e, out), false))
  {
    if e.Head? { assert (HEAD + e.branch)[|HEAD|..] == e.branch; }
    Untouched(out);
  }

  lemma LineCounts(e: Entry, out: Status)
    requires e.AheadBehind?
    ensures Line(RecordOf(e), out) == Some((Effect(e, out), false))
  {
    NumbersMatch(e.ahead, e.behind);
    var rec := RecordOf(e);
    assert rec[9] == AB[9] == 'a' && HEAD[9] == 'h';
    Untouched(out);
  }

  lemma LineReads(e: Entry, out: Status)
    requires Proper(e)
    ensures Line(RecordOf(e), out) == Some((Effect(e, out), e.Renamed?))
  {
    match e
    case Ordinary(_, _, _, _) => LineChange('1', e, out);
    case Renamed(_, _, _, _, _) => LineChange('2', e, out);
    case Unmerged(_, _, _, _) => LineUnmerged(e, out);
    case Untracked(_) => LineUntracked(e, out);
    case Ignored(_) => LineIgnored(e, out);
    case Head(_) => LineHeader(e, out);
    case AheadBehind(_, _) => LineCounts(e, out);
    case Header(_) => LineHeader(e, out);
  }

  lemma {:induction false} SpacedWhole(fs: seq<string>, path: string)
    requires Fields(fs) && Whole(path)
    ensures Whole(Spaced(fs, path))
  {
    if fs != [] {
      assert Field(fs[0]);
      SpacedWhole(fs[1..], path);
    }
  }

  lemma CodedWhole(kind: char, x: char, y: char, meta: seq<string>, path: string)
    requires Field([kind]) && Field([x, y]) && Fields(meta) && Whole(path)
    ensures Whole(Spaced([[kind], [x, y]] + meta, path))
  {
    SpacedWhole([[kind], [x, y]] + meta, path);
  }

  lemma DecimalWhole(n: nat)
    ensures Whole(Decimal(n))
  {
    DecimalDigits(n);
  }

  lemma RecordWhole(e: Entry)
    requires Proper(e)
    ensures Whole(RecordOf(e))
  {
    match e
    case Ordinary(x, y, meta, path) => CodedWhole('1', x, y, meta, path);
    case Renamed(x, y, meta, path, _) => CodedWhole('2', x, y, meta, path);
    case Unmerged(x, y, meta, path) => CodedWhole('u', x, y, meta, path);
    case AheadBehind(ahead, behind) =>
      DecimalWhole(ahead);
      DecimalWhole(behind);
    case _ =>
  }

  // ---- proofs: the whole output

  lemma Assoc<T>(a: seq<T>, b: seq<T>, c: seq<T>)
    ensures a + (b + c) == (a + b) + c
  {}

  lemma StatusStep(es: seq<Entry>, out: Status)
    requires es != []
    ensures StatusOf(es, out) == StatusOf(es[1..], Effect(es[0], out))
  {
    Assoc(out.staged, StagedBy(es[0]), StagedOf(es[1..]));
    Assoc(out.unstaged, UnstagedBy(es[0]), UnstagedOf(es[1..]));
    Assoc(out.untracked, UntrackedBy(es[0]), UntrackedOf(es[1..]));
  }

  lemma OneRecord(rec: string, rest: string)
    requires Whole(rec)
    ensures Split(rec + [NUL] + "" + rest, NUL) == [rec] + Split(rest, NUL)
  {
    SplitFirst(rec, NUL, rest);
    assert rec + [NUL] + "" + rest == rec + [NUL] + rest;
  }

  lemma TwoRecords(rec: string, orig: string, rest: string)
    requires Whole(rec) && Whole(orig)
    ensures Split(rec + [NUL] + (orig + [NUL]) + rest, NUL) == [rec] + ([orig] + Split(rest, NUL))
  {
    SplitFirst(orig, NUL, rest);
    SplitFirst(rec, NUL, orig + [NUL] + rest);
    assert rec + [NUL] + (orig + [NUL]) + rest == rec + [NUL] + (orig + [NUL] + rest);
  }

  lemma RecordsFirst(e: Entry, rest: string)
    requires Proper(e)
    ensures var recs := Split(PrintOne(e) + rest, NUL);
      recs[0] == RecordOf(e) && Slice(recs, if e.Renamed? then 2 else 1) == Split(rest, NUL)
  {
    RecordWhole(e);
    if e.Renamed? { TwoRecords(RecordOf(e), e.orig, rest); } else { OneRecord(RecordOf(e), rest); }
  }

  lemma {:induction false} LinesRead(es: seq<Entry>, out: Status)
    requires forall i :: 0 <= i < |es| ==> Proper(es[i])
    ensures Lines(Split(Print(es), NUL), out) == Some(StatusOf(es, out))
  {
    if es == [] {
      assert Split("", NUL) == [""] && Slice([""], 1) == [];
      assert out.staged + [] == out.staged && out.unstaged + [] == out.unstaged && out.untracked + [] == out.untracked;
    } else {
      RecordsFirst(es[0], Print(es[1..]));
      LineReads(es[0], out);
      StatusStep(es, out);
      LinesRead(es[1..], Effect(es[0], out));
    }
  }

  /** Parsing what git prints for any entries gives back exactly their staged, unstaged and untracked lists,
      in order, the branch, and the ahead and behind counts: whatever spaces, newlines or record-like text
      the paths hold. */
  lemma ParsePrint(es: seq<Entry>)
    requires forall i :: 0 <= i < |es| ==> Proper(es[i])
    ensures Lines(Split(Print(es), NUL), CLEAN) ==
      Some(Status(StagedOf(es), UnstagedOf(es), UntrackedOf(es), BranchOf(es, ""), CountsOf(es, (0, 0)).0, CountsOf(es, (0, 0)).1))
  {
    LinesRead(es, CLEAN);
    assert [] + StagedOf(es) == StagedOf(es) && [] + UnstagedOf(es) == UnstagedOf(es) && [] + UntrackedOf(es) == UntrackedOf(es);
  }
}
