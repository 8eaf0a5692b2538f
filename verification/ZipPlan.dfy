/** planFolder of zip-folder.js: which files of a folder go into its archive, and that the archive rebuilds it. */
module ZipPlan {
  import opened ByteStrings
  import opened Options
  import opened Records
  import opened ZipWriter

  // ---- the folder on disk

  datatype Node =
    | Directory(children: seq<Child>, at: Moment)
    | Regular(content: Bytes, at: Moment, mode: nat)
    | Link
    | Special

  datatype Child = Child(name: Bytes, node: Node)

  type Path = seq<Bytes>

  predicate ProperName(name: Bytes) {
    name != [] && SLASH !in name
  }

  predicate Proper(c: Child) {
    && ProperName(c.name)
    && (c.node.Directory? ==> c.node.at.Valid() && ProperTree(c.node.children))
    && (c.node.Regular? ==> c.node.at.Valid())
  }

  /** What a file system guarantees: names are non-empty, hold no slash, and differ within one folder. */
  predicate ProperTree(cs: seq<Child>) {
    cs == [] ||
    var last := cs[|cs| - 1];
    Proper(last) && Find(cs[..|cs| - 1], last.name).None? && ProperTree(cs[..|cs| - 1])
  }

  function Find(cs: seq<Child>, name: Bytes): Option<Node> {
    if cs == [] then None
    else if cs[|cs| - 1].name == name then Some(cs[|cs| - 1].node)
    else Find(cs[..|cs| - 1], name)
  }

  /** The node a non-empty path leads to. */
  function Lookup(cs: seq<Child>, p: Path): Option<Node>
    decreases p
  {
    if p == [] then None
    else
      var n := Find(cs, p[0]);
      if n.None? || |p| == 1 then n
      else if n.value.Directory? then Lookup(n.value.children, p[1..])
      else None
  }

  // ---- the rules

  const DOT_GIT: Bytes := [46, 103, 105, 116]
  const AINDRIVE: Bytes := [46, 97, 105, 110, 100, 114, 105, 118, 101]
  const NODE_MODULES: Bytes := [110, 111, 100, 101, 95, 109, 111, 100, 117, 108, 101, 115]
  const DS_STORE: Bytes := [46, 68, 83, 95, 83, 116, 111, 114, 101]

  predicate SkipName(name: Bytes) {
    name == AINDRIVE || name == DOT_GIT || name == NODE_MODULES || name == DS_STORE
  }

  predicate BareName(name: Bytes) {
    |name| > 4 && name[|name| - 4..] == DOT_GIT
  }

  predicate Admitted(c: Child) {
    !SkipName(c.name) && !(c.node.Directory? && BareName(c.name)) && !c.node.Link?
  }

  function Join(p: Path): Bytes {
    if p == [] then [] else if |p| == 1 then p[0] else Join(p[..|p| - 1]) + [SLASH] + p[|p| - 1]
  }

  function TrimFront(s: Bytes): Bytes {
    if s != [] && s[0] == SLASH then TrimFront(s[1..]) else s
  }

  /** The exclude paths without slashes around them, empty ones dropped. */
  function ExcludeList(exclude: seq<Bytes>): seq<Bytes> {
    if exclude == [] then []
    else
      var x := TrimSlashes(TrimFront(exclude[|exclude| - 1]));
      ExcludeList(exclude[..|exclude| - 1]) + if x == [] then [] else [x]
  }

  // ---- what the list means, in terms of the paths handed in

  predicate OnlySlashes(s: Bytes) {
    forall k :: 0 <= k < |s| ==> s[k] == SLASH
  }

  /** `entry` is `x` with slashes only before and after it. */
  ghost predicate Around(entry: Bytes, x: Bytes) {
    exists a, b :: OnlySlashes(a) && OnlySlashes(b) && entry == a + x + b
  }

  predicate Bare(x: Bytes) {
    x != [] && x[0] != SLASH && x[|x| - 1] != SLASH
  }

  /** Some path handed in is `x`, but for slashes around it. */
  ghost predicate Named(exclude: seq<Bytes>, x: Bytes) {
    exists i :: 0 <= i < |exclude| && Around(exclude[i], x)
  }

  lemma {:induction false} FrontTrimmed(s: Bytes) returns (a: Bytes)
    ensures OnlySlashes(a) && s == a + TrimFront(s) && (TrimFront(s) == [] || TrimFront(s)[0] != SLASH)
  {
    a := [];
    if s != [] && s[0] == SLASH {
      var more := FrontTrimmed(s[1..]);
      a := [SLASH] + more;
    }
  }

  lemma {:induction false} BackTrimmed(s: Bytes) returns (b: Bytes)
    ensures OnlySlashes(b) && s == TrimSlashes(s) + b && (TrimSlashes(s) == [] || TrimSlashes(s)[|TrimSlashes(s)| - 1] != SLASH)
  {
    b := [];
    if s != [] && s[|s| - 1] == SLASH {
      var more := BackTrimmed(s[..|s| - 1]);
      b := more + [SLASH];
      assert s == s[..|s| - 1] + [SLASH];
    }
  }

  lemma {:induction false} TrimFrontOf(a: Bytes, s: Bytes)
    requires OnlySlashes(a) && (s == [] || s[0] != SLASH)
    ensures TrimFront(a + s) == s
  {
    if a == [] {
      assert a + s == s;
    } else {
      TrimFrontOf(a[1..], s);
      assert (a + s)[1..] == a[1..] + s;
    }
  }

  lemma {:induction false} TrimSlashesOf(s: Bytes, b: Bytes)
    requires OnlySlashes(b) && (s == [] || s[|s| - 1] != SLASH)
    ensures TrimSlashes(s + b) == s
  {
    if b == [] {
      assert s + b == s;
    } else {
      TrimSlashesOf(s, b[..|b| - 1]);
      assert (s + b)[..|s + b| - 1] == s + b[..|b| - 1];
    }
  }

  lemma TrimmedIff(entry: Bytes, x: Bytes)
    requires x != []
    ensures TrimSlashes(TrimFront(entry)) == x <==> Bare(x) && Around(entry, x)
  {
    if TrimSlashes(TrimFront(entry)) == x {
      var a := FrontTrimmed(entry);
      var b := BackTrimmed(TrimFront(entry));
      assert TrimFront(entry)[0] == x[0];
      assert entry == a + x + b;
    }
    if Bare(x) && Around(entry, x) {
      var a, b :| OnlySlashes(a) && OnlySlashes(b) && entry == a + x + b;
      assert a + x + b == a + (x + b);
      TrimFrontOf(a, x + b);
      TrimSlashesOf(x, b);
    }
  }

  /** The list holds exactly the paths handed in, without the slashes around them, empty ones dropped. */
  lemma {:induction false} ExcludeListExact(exclude: seq<Bytes>, x: Bytes)
    ensures x in ExcludeList(exclude) <==> Bare(x) && Named(exclude, x)
  {
    if exclude != [] {
      var front, last := exclude[..|exclude| - 1], exclude[|exclude| - 1];
      ExcludeListExact(front, x);
      if x != [] { TrimmedIff(last, x); }
      NamedMore(front, last, x);
      assert exclude == front + [last];
    }
  }

  lemma NamedMore(front: seq<Bytes>, last: Bytes, x: Bytes)
    ensures Named(front + [last], x) <==> Named(front, x) || Around(last, x)
  {
    var all := front + [last];
    if Named(front, x) {
      var i :| 0 <= i < |front| && Around(front[i], x);
      assert Around(all[i], x);
    }
    if Around(last, x) { assert Around(all[|front|], x); }
  }

  predicate IsExcluded(rel: Bytes, ex: seq<Bytes>) {
    exists i :: 0 <= i < |ex| && (rel == ex[i] || ex[i] + [SLASH] <= rel)
  }

  // ---- the walk

  datatype Visit =
    | Took(path: Path, content: Bytes, at: Moment, mode: nat)
    | Empty(path: Path, at: Moment)
    | Cut(path: Path)

  predicate Kept(c: Child, at: Path, ex: seq<Bytes>) {
    Admitted(c) && !IsExcluded(Join(at + [c.name]), ex) && (c.node.Directory? || c.node.Regular?)
  }

  predicate KeepsAny(cs: seq<Child>, at: Path, ex: seq<Bytes>) {
    exists i :: 0 <= i < |cs| && Kept(cs[i], at, ex)
  }

  function VisitChild(c: Child, at: Path, ex: seq<Bytes>): seq<Visit>
    decreases c
  {
    var p := at + [c.name];
    if !Admitted(c) then []
    else if IsExcluded(Join(p), ex) then [Cut(p)]
    else
      match c.node
      case Regular(content, m, mode) => [Took(p, content, m, mode)]
      case Directory(children, m) => WalkFolder(children, m, p, ex)
      case _ => []
  }

  function Walk(cs: seq<Child>, at: Path, ex: seq<Bytes>): seq<Visit>
    decreases cs, 0
  {
    if cs == [] then [] else Walk(cs[..|cs| - 1], at, ex) + VisitChild(cs[|cs| - 1], at, ex)
  }

  /** A folder's visits; a folder other than the root with nothing kept in it is listed itself. */
  function WalkFolder(cs: seq<Child>, m: Moment, at: Path, ex: seq<Bytes>): seq<Visit>
    decreases cs, 1
  {
    Walk(cs, at, ex) + if KeepsAny(cs, at, ex) || at == [] then [] else [Empty(at, m)]
  }

  // ---- exclusion by strings is exclusion by path components

  predicate ProperPath(p: Path) {
    forall i :: 0 <= i < |p| ==> ProperName(p[i])
  }

  lemma {:induction false} PrefixJoins(p: Path, k: nat)
    requires 1 <= k < |p|
    ensures Join(p[..k]) + [SLASH] <= Join(p)
  {
    var q := p[..|p| - 1];
    if k < |q| {
      PrefixJoins(q, k);
      assert q[..k] == p[..k];
    }
  }

  lemma {:induction false} SlashIsBoundary(p: Path, x: Bytes) returns (k: nat)
    requires ProperPath(p) && p != [] && x + [SLASH] <= Join(p)
    ensures 1 <= k < |p| && Join(p[..k]) == x
  {
    assert Join(p)[|x|] == SLASH by { assert (x + [SLASH])[|x|] == SLASH; }
    if |p| > 1 {
      var q := p[..|p| - 1];
      if |x| < |Join(q)| {
        assert x + [SLASH] <= Join(q) by {
          forall i | 0 <= i <= |x| ensures (x + [SLASH])[i] == Join(q)[i] { assert Join(p)[i] == Join(q)[i]; }
        }
        k := SlashIsBoundary(q, x);
        assert q[..k] == p[..k];
      } else if |x| == |Join(q)| {
        k := |q|;
        assert x == Join(q) by {
          forall i | 0 <= i < |x| ensures x[i] == Join(q)[i] { assert Join(p)[i] == (x + [SLASH])[i]; }
        }
      } else {
        assert false;
      }
    }
  }

  lemma ExcludedByPrefix(p: Path, ex: seq<Bytes>, k: nat)
    requires 1 <= k <= |p| && Join(p[..k]) in ex
    ensures IsExcluded(Join(p), ex)
  {
    var i :| 0 <= i < |ex| && ex[i] == Join(p[..k]);
    if k < |p| { PrefixJoins(p, k); } else { assert p[..k] == p; }
  }

  lemma ExcludedPrefix(p: Path, ex: seq<Bytes>) returns (k: nat)
    requires ProperPath(p) && p != [] && IsExcluded(Join(p), ex)
    ensures 1 <= k <= |p| && Join(p[..k]) in ex
  {
    var i :| 0 <= i < |ex| && (Join(p) == ex[i] || ex[i] + [SLASH] <= Join(p));
    if Join(p) == ex[i] {
      k := |p|;
      assert p[..k] == p;
    } else {
      k := SlashIsBoundary(p, ex[i]);
    }
  }

  /** A path is excluded exactly when it, or a folder it lies in, is named in the list. */
  lemma ExcludedAtOrUnder(p: Path, ex: seq<Bytes>)
    requires ProperPath(p) && p != []
    ensures IsExcluded(Join(p), ex) <==> exists k :: 1 <= k <= |p| && Join(p[..k]) in ex
  {
    if IsExcluded(Join(p), ex) {
      var k := ExcludedPrefix(p, ex);
    }
    if k :| 1 <= k <= |p| && Join(p[..k]) in ex {
      ExcludedByPrefix(p, ex, k);
    }
  }

  // ---- what the walk visits

  lemma {:induction false} WalkHas(cs: seq<Child>, at: Path, ex: seq<Bytes>, i: nat, v: Visit)
    requires i < |cs| && v in VisitChild(cs[i], at, ex)
    ensures v in Walk(cs, at, ex)
  {
    if i < |cs| - 1 {
      WalkHas(cs[..|cs| - 1], at, ex, i, v);
    }
  }

  lemma {:induction false} WalkFrom(cs: seq<Child>, at: Path, ex: seq<Bytes>, v: Visit) returns (i: nat)
    requires v in Walk(cs, at, ex)
    ensures i < |cs| && v in VisitChild(cs[i], at, ex)
  {
    if v in Walk(cs[..|cs| - 1], at, ex) {
      i := WalkFrom(cs[..|cs| - 1], at, ex, v);
    } else {
      i := |cs| - 1;
    }
  }

  lemma {:induction false} VisitsBelow(c: Child, at: Path, ex: seq<Bytes>, v: Visit)
    requires v in VisitChild(c, at, ex)
    ensures at + [c.name] <= v.path && (c.node.Directory? && v.path == at + [c.name] ==> !v.Took?)
    ensures v.path != at + [c.name] ==> c.node.Directory? && v in Walk(c.node.children, at + [c.name], ex)
    decreases c
  {
    var p := at + [c.name];
    if Admitted(c) && !IsExcluded(Join(p), ex) && c.node.Directory? && v in Walk(c.node.children, p, ex) {
      var i := WalkFrom(c.node.children, p, ex, v);
      VisitsBelow(c.node.children[i], p, ex, v);
    }
  }

  lemma {:induction false} FindAt(cs: seq<Child>, i: nat)
    requires ProperTree(cs) && i < |cs|
    ensures Proper(cs[i]) && Find(cs, cs[i].name) == Some(cs[i].node)
  {
    if i < |cs| - 1 {
      var before := cs[..|cs| - 1];
      FindAt(before, i);
      assert before[i] == cs[i];
    }
  }

  lemma {:induction false} Found(cs: seq<Child>, name: Bytes) returns (i: nat)
    requires Find(cs, name).Some?
    ensures i < |cs| && cs[i] == Child(name, Find(cs, name).value)
  {
    if cs[|cs| - 1].name == name {
      i := |cs| - 1;
    } else {
      i := Found(cs[..|cs| - 1], name);
    }
  }

  /** A visit comes from the child its path names. */
  lemma ByName(cs: seq<Child>, at: Path, ex: seq<Bytes>, v: Visit)
    requires ProperTree(cs)
    ensures v in Walk(cs, at, ex) <==>
      && at < v.path && |at| < |v.path| && Find(cs, v.path[|at|]).Some?
      && v in VisitChild(Child(v.path[|at|], Find(cs, v.path[|at|]).value), at, ex)
  {
    if v in Walk(cs, at, ex) {
      var i := WalkFrom(cs, at, ex, v);
      VisitsBelow(cs[i], at, ex, v);
      FindAt(cs, i);
      assert (at + [cs[i].name])[|at|] == v.path[|at|];
      assert at < v.path;
    } else if at < v.path && |at| < |v.path| && Find(cs, v.path[|at|]).Some? {
      var i := Found(cs, v.path[|at|]);
      if v in VisitChild(cs[i], at, ex) { WalkHas(cs, at, ex, i, v); }
    }
  }

  /** Every folder on the way from `at` down `p`, and what `p` leads to, is admitted and not excluded. */
  predicate Open(cs: seq<Child>, at: Path, p: Path, ex: seq<Bytes>)
    decreases p
  {
    p == [] ||
    var n := Find(cs, p[0]);
    && n.Some? && Admitted(Child(p[0], n.value)) && !IsExcluded(Join(at + [p[0]]), ex)
    && (|p| > 1 ==> n.value.Directory? && Open(n.value.children, at + [p[0]], p[1..], ex))
  }

  lemma FolderVisits(cs: seq<Child>, m: Moment, at: Path, ex: seq<Bytes>, v: Visit)
    ensures v in WalkFolder(cs, m, at, ex) <==>
      v in Walk(cs, at, ex) || (v == Empty(at, m) && !KeepsAny(cs, at, ex) && at != [])
  {}

  /** What being visited means, in terms of the tree alone. */
  ghost predicate Due(cs: seq<Child>, at: Path, p: Path, ex: seq<Bytes>, v: Visit)
    requires p != []
  {
    && Lookup(cs, p).Some?
    && match v
       case Took(_, content, m, mode) => Open(cs, at, p, ex) && Lookup(cs, p).value == Regular(content, m, mode)
       case Empty(_, m) =>
         && Open(cs, at, p, ex) && Lookup(cs, p).value.Directory? && Lookup(cs, p).value.at == m
         && !KeepsAny(Lookup(cs, p).value.children, at + p, ex)
       case Cut(_) =>
         && Open(cs, at, p[..|p| - 1], ex) && Admitted(Child(p[|p| - 1], Lookup(cs, p).value))
         && IsExcluded(Join(at + p), ex)
  }

  lemma DueOne(cs: seq<Child>, at: Path, p: Path, ex: seq<Bytes>, v: Visit)
    requires ProperTree(cs) && |p| == 1 && v.path == at + p
    ensures v in Walk(cs, at, ex) <==> Due(cs, at, p, ex, v)
  {
    ByName(cs, at, ex, v);
    assert v.path[|at|] == p[0] && p == [p[0]];
    if Find(cs, p[0]).Some? {
      var c := Child(p[0], Find(cs, p[0]).value);
      if c.node.Directory? {
        FolderVisits(c.node.children, c.node.at, v.path, ex, v);
        if v in Walk(c.node.children, v.path, ex) {
          var i := WalkFrom(c.node.children, v.path, ex, v);
          VisitsBelow(c.node.children[i], v.path, ex, v);
        }
      }
    }
  }

  lemma DueMore(cs: seq<Child>, at: Path, p: Path, ex: seq<Bytes>, v: Visit)
    requires |p| > 1 && v.path == at + p && Find(cs, p[0]).Some?
    ensures Due(cs, at, p, ex, v) <==>
      var n := Find(cs, p[0]).value;
      && n.Directory? && Admitted(Child(p[0], n)) && !IsExcluded(Join(at + [p[0]]), ex)
      && Due(n.children, at + [p[0]], p[1..], ex, v)
  {
    assert at + p == (at + [p[0]]) + p[1..];
    assert p[..|p| - 1][1..] == p[1..][..|p| - 2];
  }

  /** The walk visits exactly what is due: the files reached through admitted folders that no exclusion
      covers, the folders left empty, and the excluded nodes whose folder is not excluded. */
  lemma {:induction false} WalkVisitsDue(cs: seq<Child>, at: Path, p: Path, ex: seq<Bytes>, v: Visit)
    requires ProperTree(cs) && p != [] && v.path == at + p
    ensures v in Walk(cs, at, ex) <==> Due(cs, at, p, ex, v)
    decreases p
  {
    if |p| == 1 {
      DueOne(cs, at, p, ex, v);
    } else {
      ByName(cs, at, ex, v);
      assert v.path[|at|] == p[0];
      if Find(cs, p[0]).Some? {
        var n := Find(cs, p[0]).value;
        var i := Found(cs, p[0]);
        FindAt(cs, i);
        DueMore(cs, at, p, ex, v);
        if n.Directory? {
          assert at + p == (at + [p[0]]) + p[1..];
          WalkVisitsDue(n.children, at + [p[0]], p[1..], ex, v);
          FolderVisits(n.children, n.at, at + [p[0]], ex, v);
        }
      }
    }
  }

  /** Each name on the way down `p` is admitted, and neither `p` nor a folder above it is in the list. */
  ghost predicate Reached(cs: seq<Child>, p: Path, ex: seq<Bytes>) {
    forall k :: 1 <= k <= |p| ==> Clear(cs, p[..k], ex)
  }

  ghost predicate Clear(cs: seq<Child>, q: Path, ex: seq<Bytes>) {
    q != [] && Lookup(cs, q).Some? && Admitted(Child(q[|q| - 1], Lookup(cs, q).value)) && Join(q) !in ex
  }

  lemma {:induction false} OpenSteps(cs: seq<Child>, at: Path, p: Path, ex: seq<Bytes>)
    ensures Open(cs, at, p, ex) <==> forall k :: 1 <= k <= |p| ==> OpenStep(cs, at, p[..k], ex)
    decreases p
  {
    if p != [] && Find(cs, p[0]).Some? {
      var n := Find(cs, p[0]).value;
      assert OpenStep(cs, at, p[..1], ex) <==> Admitted(Child(p[0], n)) && !IsExcluded(Join(at + [p[0]]), ex) by {
        assert p[..1] == [p[0]];
      }
      if |p| > 1 && n.Directory? {
        OpenSteps(n.children, at + [p[0]], p[1..], ex);
        forall k | 1 <= k < |p|
          ensures OpenStep(cs, at, p[..k + 1], ex) <==> OpenStep(n.children, at + [p[0]], p[1..][..k], ex)
        {
          assert p[..k + 1][1..] == p[1..][..k];
          assert (at + [p[0]]) + p[1..][..k] == at + p[..k + 1];
        }
        forall k | 1 <= k <= |p| && !OpenStep(cs, at, p[..k], ex) ensures !Open(cs, at, p, ex) {
          if k > 1 { assert !OpenStep(n.children, at + [p[0]], p[1..][..k - 1], ex); }
        }
        if Open(cs, at, p, ex) || forall k :: 1 <= k <= |p| ==> OpenStep(cs, at, p[..k], ex) {
          assert OpenStep(cs, at, p[..1], ex);
          forall j | 1 <= j <= |p[1..]| && forall k :: 1 <= k <= |p| ==> OpenStep(cs, at, p[..k], ex)
            ensures OpenStep(n.children, at + [p[0]], p[1..][..j], ex)
          {
            assert OpenStep(cs, at, p[..j + 1], ex);
          }
        }
      } else if |p| > 1 {
        assert !OpenStep(cs, at, p[..2], ex);
      }
    } else if p != [] {
      assert p[..1][0] == p[0];
      assert !OpenStep(cs, at, p[..1], ex);
    }
  }

  ghost predicate OpenStep(cs: seq<Child>, at: Path, q: Path, ex: seq<Bytes>) {
    q != [] && Lookup(cs, q).Some? && Admitted(Child(q[|q| - 1], Lookup(cs, q).value)) && !IsExcluded(Join(at + q), ex)
  }

  lemma {:induction false} LookupProper(cs: seq<Child>, p: Path)
    requires ProperTree(cs) && Lookup(cs, p).Some?
    ensures ProperPath(p) && Proper(Child(p[|p| - 1], Lookup(cs, p).value))
    decreases p
  {
    var i := Found(cs, p[0]);
    FindAt(cs, i);
    if |p| > 1 { LookupProper(cs[i].node.children, p[1..]); }
    forall j | 0 <= j < |p| ensures ProperName(p[j]) {
      if j > 0 { assert p[j] == p[1..][j - 1]; }
    }
  }

  lemma {:induction false} LookupUp(cs: seq<Child>, p: Path, k: nat)
    requires Lookup(cs, p).Some? && 1 <= k < |p|
    ensures Lookup(cs, p[..k]).Some? && Lookup(cs, p[..k]).value.Directory?
    decreases p
  {
    if k > 1 {
      LookupUp(Find(cs, p[0]).value.children, p[1..], k - 1);
      assert p[..k][1..] == p[1..][..k - 1];
    }
  }

  function Ascii(s: string): Bytes
    requires forall i :: 0 <= i < |s| ==> s[i] < 128 as char
  {
    seq(|s|, i requires 0 <= i < |s| => s[i] as byte)
  }

  /** A name that stands for itself in an archive: none of those left out everywhere, and for a folder none
      of a bare repository either. */
  predicate Archived(name: Bytes, folder: bool) {
    && name != Ascii(".aindrive") && name != Ascii(".git") && name != Ascii("node_modules") && name != Ascii(".DS_Store")
    && (folder ==> |name| <= 4 || name[|name| - 4..] != Ascii(".git"))
  }

  lemma SkippedNames()
    ensures DOT_GIT == Ascii(".git") && AINDRIVE == Ascii(".aindrive")
    ensures NODE_MODULES == Ascii("node_modules") && DS_STORE == Ascii(".DS_Store") && [SLASH] == Ascii("/")
  {}

  lemma AdmittedIff(c: Child)
    ensures Admitted(c) <==> Archived(c.name, c.node.Directory?) && !c.node.Link?
  {
    SkippedNames();
  }

  lemma {:induction false} JoinBare(p: Path)
    requires ProperPath(p) && p != []
    ensures Bare(Join(p))
  {
    if |p| > 1 { JoinBare(p[..|p| - 1]); }
    var last := p[|p| - 1];
    assert Join(p)[|Join(p)| - 1] == last[|last| - 1];
    assert ProperName(p[0]) && ProperName(last);
  }

  /** Every name on the way down `p` is archived, and no path handed in is `p` or a folder above it. */
  ghost predicate Shown(cs: seq<Child>, p: Path, exclude: seq<Bytes>)
    requires Lookup(cs, p).Some?
  {
    forall k :: 1 <= k <= |p| ==> ShownStep(p[..k], k < |p| || Lookup(cs, p).value.Directory?, exclude)
  }

  ghost predicate ShownStep(q: Path, folder: bool, exclude: seq<Bytes>)
    requires q != []
  {
    Archived(q[|q| - 1], folder) && !Named(exclude, Join(q))
  }

  lemma ReachedStep(cs: seq<Child>, p: Path, exclude: seq<Bytes>, k: nat)
    requires ProperTree(cs) && Lookup(cs, p).Some? && !Lookup(cs, p).value.Link? && 1 <= k <= |p|
    ensures Clear(cs, p[..k], ExcludeList(exclude)) <==> ShownStep(p[..k], k < |p| || Lookup(cs, p).value.Directory?, exclude)
  {
    if k < |p| { LookupUp(cs, p, k); } else { assert p[..k] == p; }
    ClearIff(cs, p[..k], exclude);
  }

  lemma ClearIff(cs: seq<Child>, q: Path, exclude: seq<Bytes>)
    requires ProperTree(cs) && q != [] && Lookup(cs, q).Some? && !Lookup(cs, q).value.Link?
    ensures Clear(cs, q, ExcludeList(exclude)) <==> ShownStep(q, Lookup(cs, q).value.Directory?, exclude)
  {
    AdmittedIff(Child(q[|q| - 1], Lookup(cs, q).value));
    LookupProper(cs, q);
    JoinBare(q);
    ExcludeListExact(exclude, Join(q));
  }

  /** What the walk reaches, in terms of the names and of the paths handed in. */
  lemma ReachedIff(cs: seq<Child>, p: Path, exclude: seq<Bytes>)
    requires ProperTree(cs) && Lookup(cs, p).Some? && !Lookup(cs, p).value.Link?
    ensures Reached(cs, p, ExcludeList(exclude)) <==> Shown(cs, p, exclude)
  {
    forall k | 1 <= k <= |p|
      ensures Clear(cs, p[..k], ExcludeList(exclude)) <==> ShownStep(p[..k], k < |p| || Lookup(cs, p).value.Directory?, exclude)
    {
      ReachedStep(cs, p, exclude, k);
    }
  }

  lemma OpenIsReached(cs: seq<Child>, p: Path, ex: seq<Bytes>)
    requires ProperTree(cs)
    ensures Open(cs, [], p, ex) <==> Reached(cs, p, ex)
  {
    OpenSteps(cs, [], p, ex);
    forall k | 1 <= k <= |p| ensures OpenStep(cs, [], p[..k], ex) ==> Clear(cs, p[..k], ex) {
      var q := p[..k];
      assert [] + q == q;
      if Lookup(cs, q).Some? {
        LookupProper(cs, q);
        ExcludedAtOrUnder(q, ex);
        assert q[..k] == q;
      }
    }
    if Reached(cs, p, ex) {
      forall k | 1 <= k <= |p| ensures OpenStep(cs, [], p[..k], ex) {
        var q := p[..k];
        assert Clear(cs, q, ex) && [] + q == q;
        LookupProper(cs, q);
        ExcludedAtOrUnder(q, ex);
        forall j | 1 <= j <= |q| ensures Join(q[..j]) !in ex {
          assert q[..j] == p[..j];
          assert Clear(cs, p[..j], ex);
        }
      }
    }
  }

  ghost predicate Planned(cs: seq<Child>, ex: seq<Bytes>, v: Visit) {
    && v.path != [] && Lookup(cs, v.path).Some?
    && var n := Lookup(cs, v.path).value;
       match v
       case Took(p, content, m, mode) => Reached(cs, p, ex) && n == Regular(content, m, mode)
       case Empty(p, m) => Reached(cs, p, ex) && n.Directory? && n.at == m && !KeepsAny(n.children, p, ex)
       case Cut(p) => Reached(cs, p[..|p| - 1], ex) && Admitted(Child(p[|p| - 1], n)) && Join(p) in ex
  }

  /** The plan, in terms of the tree and the exclude list alone: a file is taken exactly when no name on
      its way is skipped and neither it nor a folder above it is in the list; an excluded node is counted
      exactly when it is in the list itself and everything above it is reached. */
  lemma PlanExact(cs: seq<Child>, ex: seq<Bytes>, v: Visit)
    requires ProperTree(cs)
    ensures v in Walk(cs, [], ex) <==> Planned(cs, ex, v)
  {
    var p := v.path;
    if p == [] {
      ByName(cs, [], ex, v);
    } else {
      assert [] + p == p;
      WalkVisitsDue(cs, [], p, ex, v);
      OpenIsReached(cs, p, ex);
      OpenIsReached(cs, p[..|p| - 1], ex);
      if v.Cut? && Reached(cs, p[..|p| - 1], ex) && Lookup(cs, p).Some? {
        CutIsListed(cs, p, ex);
      }
    }
  }

  lemma CutIsListed(cs: seq<Child>, p: Path, ex: seq<Bytes>)
    requires ProperTree(cs) && p != [] && Reached(cs, p[..|p| - 1], ex) && Lookup(cs, p).Some?
    ensures IsExcluded(Join(p), ex) <==> Join(p) in ex
  {
    LookupProper(cs, p);
    ExcludedAtOrUnder(p, ex);
    forall k | 1 <= k < |p| ensures Join(p[..k]) !in ex {
      assert p[..|p| - 1][..k] == p[..k];
      assert Clear(cs, p[..k], ex);
    }
    assert p[..|p|] == p;
  }

  lemma {:induction false} NoneTwice(cs: seq<Child>, at: Path, ex: seq<Bytes>, i: nat, j: nat)
    requires ProperTree(cs) && i < j < |Walk(cs, at, ex)|
    ensures Walk(cs, at, ex)[i].path != Walk(cs, at, ex)[j].path
    decreases cs
  {
    var n := |cs| - 1;
    var before, last := Walk(cs[..n], at, ex), VisitChild(cs[n], at, ex);
    if j < |before| {
      NoneTwice(cs[..n], at, ex, i, j);
    } else if i >= |before| {
      NoneTwiceBelow(cs[n], at, ex, i - |before|, j - |before|);
    } else {
      var v, w := before[i], last[j - |before|];
      ByName(cs[..n], at, ex, v);
      VisitsBelow(cs[n], at, ex, w);
      assert (at + [cs[n].name])[|at|] == cs[n].name;
    }
  }

  lemma {:induction false} NoneTwiceBelow(c: Child, at: Path, ex: seq<Bytes>, i: nat, j: nat)
    requires Proper(c) && i < j < |VisitChild(c, at, ex)|
    ensures VisitChild(c, at, ex)[i].path != VisitChild(c, at, ex)[j].path
    decreases c
  {
    var p := at + [c.name];
    var below := Walk(c.node.children, p, ex);
    if j < |below| {
      NoneTwice(c.node.children, p, ex, i, j);
    } else {
      ByName(c.node.children, p, ex, below[i]);
    }
  }

  /** A reached folder is listed as empty, or some listed file or empty folder lies below it. */
  lemma {:induction false} FolderCovered(c: Child, at: Path, ex: seq<Bytes>) returns (v: Visit)
    requires c.node.Directory? && Kept(c, at, ex)
    ensures v in VisitChild(c, at, ex) && !v.Cut? && at + [c.name] <= v.path
    ensures v.path == at + [c.name] ==> v.Empty?
    decreases c
  {
    var p, cs := at + [c.name], c.node.children;
    if KeepsAny(cs, p, ex) {
      var i :| 0 <= i < |cs| && Kept(cs[i], p, ex);
      if cs[i].node.Directory? {
        v := FolderCovered(cs[i], p, ex);
      } else {
        v := Took(p + [cs[i].name], cs[i].node.content, cs[i].node.at, cs[i].node.mode);
      }
      WalkHas(cs, p, ex, i, v);
      assert (p + [cs[i].name])[..|p|] == p;
      assert v.path[..|p|] == p;
    } else {
      v := Empty(p, c.node.at);
    }
  }

  lemma {:induction false} OpenFolderCovered(cs: seq<Child>, at: Path, p: Path, ex: seq<Bytes>) returns (v: Visit)
    requires p != [] && Open(cs, at, p, ex) && Lookup(cs, p).Some? && Lookup(cs, p).value.Directory?
    ensures v in Walk(cs, at, ex) && !v.Cut? && at + p <= v.path && (v.path == at + p ==> v.Empty?)
    decreases p
  {
    var i := Found(cs, p[0]);
    if |p| == 1 {
      assert p == [p[0]];
      v := FolderCovered(cs[i], at, ex);
    } else {
      v := OpenFolderCovered(cs[i].node.children, at + [p[0]], p[1..], ex);
      assert at + p == (at + [p[0]]) + p[1..];
      FolderVisits(cs[i].node.children, cs[i].node.at, at + [p[0]], ex, v);
    }
    WalkHas(cs, at, ex, i, v);
  }

  /** Every folder that is reached is rebuilt on extraction: it is listed as empty, or it is above a listed entry. */
  lemma FolderListed(cs: seq<Child>, p: Path, ex: seq<Bytes>) returns (v: Visit)
    requires ProperTree(cs) && p != [] && Reached(cs, p, ex) && Lookup(cs, p).Some? && Lookup(cs, p).value.Directory?
    ensures v in Walk(cs, [], ex) && !v.Cut? && p <= v.path && (v.path == p ==> v.Empty?)
  {
    OpenIsReached(cs, p, ex);
    v := OpenFolderCovered(cs, [], p, ex);
    assert [] + p == p;
  }

  lemma JoinSlash(p: Path)
    requires ProperPath(p) && p != []
    ensures SLASH in Join(p) <==> |p| > 1
  {
    if |p| > 1 { assert Join(p)[|Join(p[..|p| - 1])|] == SLASH; }
  }

  /** Different paths have different names in the archive. */
  lemma {:induction false} JoinInjective(p: Path, q: Path)
    requires ProperPath(p) && ProperPath(q) && p != [] && q != [] && Join(p) == Join(q)
    ensures p == q
  {
    JoinSlash(p);
    JoinSlash(q);
    if |p| > 1 {
      SplitAtSlash(Join(p[..|p| - 1]), p[|p| - 1], Join(q[..|q| - 1]), q[|q| - 1]);
      JoinInjective(p[..|p| - 1], q[..|q| - 1]);
      assert p == p[..|p| - 1] + [p[|p| - 1]] && q == q[..|q| - 1] + [q[|q| - 1]];
    }
  }

  lemma SplitAtSlash(a: Bytes, b: Bytes, c: Bytes, d: Bytes)
    requires a + [SLASH] + b == c + [SLASH] + d && SLASH !in b && SLASH !in d
    ensures a == c && b == d
  {
    var s := a + [SLASH] + b;
    assert b == s[|a| + 1..] && d == s[|c| + 1..] && s[|a|] == SLASH && s[|c|] == SLASH;
    NoSlashAfter(s, |a|);
    NoSlashAfter(s, |c|);
    assert a == s[..|a|] && c == s[..|c|];
  }

  lemma NoSlashAfter(s: Bytes, i: nat)
    requires i < |s| && SLASH !in s[i + 1..]
    ensures forall k :: i < k < |s| ==> s[k] != SLASH
  {
    forall k | i < k < |s| ensures s[k] != SLASH { assert s[k] == s[i + 1..][k - i - 1]; }
  }

  // ---- the plan

  datatype FileEntry = FileEntry(rel: Bytes, content: Bytes, at: Moment, mode: nat)
  datatype DirEntry = DirEntry(rel: Bytes, at: Moment)

  function FilesOf(vs: seq<Visit>): seq<FileEntry> {
    if vs == [] then []
    else
      var v := vs[|vs| - 1];
      FilesOf(vs[..|vs| - 1]) + if v.Took? then [FileEntry(Join(v.path), v.content, v.at, v.mode)] else []
  }

  function DirsOf(vs: seq<Visit>): seq<DirEntry> {
    if vs == [] then []
    else
      var v := vs[|vs| - 1];
      DirsOf(vs[..|vs| - 1]) + if v.Empty? then [DirEntry(Join(v.path), v.at)] else []
  }

  function CutsIn(vs: seq<Visit>): nat {
    if vs == [] then 0 else CutsIn(vs[..|vs| - 1]) + if vs[|vs| - 1].Cut? then 1 else 0
  }

  function InputBytes(files: seq<FileEntry>): nat {
    if files == [] then 0 else InputBytes(files[..|files| - 1]) + |files[|files| - 1].content|
  }

  predicate Within(vs: seq<Visit>, maxFiles: nat, maxBytes: nat) {
    |FilesOf(vs)| <= maxFiles && InputBytes(FilesOf(vs)) <= maxBytes
  }

  lemma {:induction false} FilesOfMore(vs: seq<Visit>, ws: seq<Visit>)
    ensures FilesOf(vs) <= FilesOf(vs + ws) && InputBytes(FilesOf(vs)) <= InputBytes(FilesOf(vs + ws))
  {
    if ws == [] {
      assert vs + ws == vs;
    } else {
      FilesOfMore(vs, ws[..|ws| - 1]);
      assert (vs + ws)[..|vs + ws| - 1] == vs + ws[..|ws| - 1];
      var fs, all := FilesOf(vs + ws[..|ws| - 1]), FilesOf(vs + ws);
      assert if |all| > |fs| then all[..|all| - 1] == fs else all == fs;
    }
  }

  lemma {:induction false} WalkGrows(cs: seq<Child>, at: Path, ex: seq<Bytes>, i: nat)
    requires i <= |cs|
    ensures Walk(cs[..i], at, ex) <= Walk(cs, at, ex)
  {
    if i < |cs| {
      WalkGrows(cs[..|cs| - 1], at, ex, i);
      assert cs[..|cs| - 1][..i] == cs[..i];
    } else {
      assert cs[..i] == cs;
    }
  }

  class Planner {
    const excluded: seq<Bytes>
    const maxFiles: nat
    const maxBytes: nat
    var files: seq<FileEntry>
    var dirs: seq<DirEntry>
    var bytes: nat
    var skipped: nat
    ghost var visits: seq<Visit>

    ghost predicate Valid()
      reads this
    {
      files == FilesOf(visits) && dirs == DirsOf(visits) && bytes == InputBytes(files) && skipped == CutsIn(visits)
    }

    constructor (exclude: seq<Bytes>, maxFiles: nat, maxBytes: nat)
      ensures Valid() && visits == [] && excluded == ExcludeList(exclude)
      ensures this.maxFiles == maxFiles && this.maxBytes == maxBytes
    {
      excluded, this.maxFiles, this.maxBytes := ExcludeList(exclude), maxFiles, maxBytes;
      files, dirs, bytes, skipped, visits := [], [], 0, 0, [];
    }

    method Excluded(rel: Bytes) returns (yes: bool)
      ensures yes <==> IsExcluded(rel, excluded)
    {
      for i := 0 to |excluded|
        invariant forall j :: 0 <= j < i ==> rel != excluded[j] && !(excluded[j] + [SLASH] <= rel)
      {
        if rel == excluded[i] || excluded[i] + [SLASH] <= rel { return true; }
      }
      return false;
    }

    method AddFile(f: FileEntry, ghost p: Path)
      requires Valid() && f.rel == Join(p)
      modifies this
      ensures Valid() && visits == old(visits) + [Took(p, f.content, f.at, f.mode)]
    {
      OneMore(visits, Took(p, f.content, f.at, f.mode));
      files, bytes := files + [f], bytes + |f.content|;
      visits := visits + [Took(p, f.content, f.at, f.mode)];
    }

    method AddDir(d: DirEntry, ghost p: Path)
      requires Valid() && d.rel == Join(p)
      modifies this
      ensures Valid() && visits == old(visits) + [Empty(p, d.at)] && (files, bytes) == old((files, bytes))
    {
      OneMore(visits, Empty(p, d.at));
      dirs, visits := dirs + [d], visits + [Empty(p, d.at)];
    }

    method Skip(ghost p: Path)
      requires Valid()
      modifies this
      ensures Valid() && visits == old(visits) + [Cut(p)] && (files, bytes) == old((files, bytes))
    {
      ghost var v := Cut(p);
      OneMore(visits, v);
      skipped, visits := skipped + 1, visits + [v];
    }

    /** One child of the folder `at`: stops at the first file past a cap. */
    method VisitEntry(c: Child, rel: Bytes, ghost at: Path) returns (ok: bool, kept: bool)
      requires Valid() && Within(visits, maxFiles, maxBytes) && rel == Join(at) && ProperPath(at) && Proper(c)
      modifies this
      ensures Valid() && visits <= old(visits) + VisitChild(c, at, excluded)
      ensures ok ==> visits == old(visits) + VisitChild(c, at, excluded) && (kept <==> Kept(c, at, excluded))
      ensures ok <==> Within(visits, maxFiles, maxBytes)
      decreases c
    {
      ok, kept := true, false;
      var admitted := Admitted(c);
      if !admitted { return; }
      ghost var p := at + [c.name];
      var childRel := if rel == [] then c.name else rel + [SLASH] + c.name;
      JoinChild(at, c.name);
      var out := Excluded(childRel);
      if out {
        Skip(p);
      } else if c.node.Directory? {
        kept := true;
        ok := WalkDir(c.node.children, childRel, p, c.node.at);
      } else if c.node.Regular? {
        kept := true;
        AddFile(FileEntry(childRel, c.node.content, c.node.at, c.node.mode), p);
        ok := |files| <= maxFiles && bytes <= maxBytes;
      }
    }

    method WalkDir(cs: seq<Child>, rel: Bytes, ghost at: Path, m: Moment) returns (ok: bool)
      requires Valid() && Within(visits, maxFiles, maxBytes) && rel == Join(at) && ProperPath(at) && ProperTree(cs)
      modifies this
      ensures Valid() && visits <= old(visits) + WalkFolder(cs, m, at, excluded)
      ensures ok ==> visits == old(visits) + WalkFolder(cs, m, at, excluded)
      ensures ok <==> Within(visits, maxFiles, maxBytes)
      decreases cs
    {
      var kept := false;
      for i := 0 to |cs|
        invariant Valid() && visits == old(visits) + Walk(cs[..i], at, excluded)
        invariant Within(visits, maxFiles, maxBytes) && (kept <==> KeepsAny(cs[..i], at, excluded))
      {
        FindAt(cs, i);
        WalkStep(old(visits), cs, m, at, excluded, i);
        var keptOne;
        ok, keptOne := VisitEntry(cs[i], rel, at);
        if !ok { return; }
        KeepsOneMore(cs, at, excluded, i);
        kept := kept || keptOne;
      }
      assert cs[..|cs|] == cs;
      ok := true;
      if !kept && rel != [] {
        AddDir(DirEntry(rel, m), at);
      }
    }
  }

  lemma InputMore(fs: seq<FileEntry>, f: FileEntry)
    ensures InputBytes(fs + [f]) == InputBytes(fs) + |f.content|
  {
    assert (fs + [f])[..|fs|] == fs;
  }

  /** One more visit adds its file, its empty folder, its bytes or its skip to the plan, and nothing else. */
  lemma OneMore(vs: seq<Visit>, v: Visit)
    ensures var ws := vs + [v];
      && FilesOf(ws) == FilesOf(vs) + (if v.Took? then [FileEntry(Join(v.path), v.content, v.at, v.mode)] else [])
      && DirsOf(ws) == DirsOf(vs) + (if v.Empty? then [DirEntry(Join(v.path), v.at)] else [])
      && CutsIn(ws) == CutsIn(vs) + (if v.Cut? then 1 else 0)
      && InputBytes(FilesOf(ws)) == InputBytes(FilesOf(vs)) + if v.Took? then |v.content| else 0
  {
    assert (vs + [v])[..|vs|] == vs;
    if v.Took? {
      InputMore(FilesOf(vs), FileEntry(Join(v.path), v.content, v.at, v.mode));
    } else {
      assert FilesOf(vs) + [] == FilesOf(vs);
    }
  }

  /** `skipped` is the number of excluded nodes the walk meets. */
  lemma {:induction false} CutsAreDistinct(vs: seq<Visit>)
    requires forall i, j :: 0 <= i < j < |vs| ==> vs[i].path != vs[j].path
    ensures CutsIn(vs) == |CutSet(vs)|
  {
    if vs == [] {
      assert CutSet(vs) == {};
    } else {
      var front, last := vs[..|vs| - 1], vs[|vs| - 1];
      CutsAreDistinct(front);
      assert last !in front;
      CutSetMore(front, last);
      OneMore(front, last);
      assert vs == front + [last];
    }
  }

  function CutSet(vs: seq<Visit>): set<Visit> {
    set v | v in vs && v.Cut?
  }

  lemma CutSetMore(front: seq<Visit>, last: Visit)
    requires last !in front
    ensures |CutSet(front + [last])| == |CutSet(front)| + if last.Cut? then 1 else 0
  {
    assert CutSet(front + [last]) == if last.Cut? then CutSet(front) + {last} else CutSet(front);
  }

  lemma SkippedCounts(cs: seq<Child>, ex: seq<Bytes>)
    requires ProperTree(cs)
    ensures CutsIn(Walk(cs, [], ex)) == |CutSet(Walk(cs, [], ex))|
  {
    var vs := Walk(cs, [], ex);
    forall i, j | 0 <= i < j < |vs| ensures vs[i].path != vs[j].path { NoneTwice(cs, [], ex, i, j); }
    CutsAreDistinct(vs);
  }

  lemma JoinChild(at: Path, name: Bytes)
    requires ProperPath(at) && ProperName(name)
    ensures ProperPath(at + [name]) && (Join(at) == [] <==> at == [])
    ensures Join(at + [name]) == if at == [] then name else Join(at) + [SLASH] + name
  {
    assert (at + [name])[..|at|] == at;
  }

  lemma WalkStep(before: seq<Visit>, cs: seq<Child>, m: Moment, at: Path, ex: seq<Bytes>, i: nat)
    requires i < |cs|
    ensures before + Walk(cs[..i], at, ex) + VisitChild(cs[i], at, ex) == before + Walk(cs[..i + 1], at, ex)
    ensures before + Walk(cs[..i + 1], at, ex) <= before + WalkFolder(cs, m, at, ex)
  {
    assert cs[..i + 1][..i] == cs[..i];
    WalkGrows(cs, at, ex, i + 1);
  }

  lemma KeepsOneMore(cs: seq<Child>, at: Path, ex: seq<Bytes>, i: nat)
    requires i < |cs|
    ensures KeepsAny(cs[..i + 1], at, ex) <==> KeepsAny(cs[..i], at, ex) || Kept(cs[i], at, ex)
  {
    if KeepsAny(cs[..i], at, ex) {
      var j :| 0 <= j < i && Kept(cs[..i][j], at, ex);
      assert cs[..i + 1][j] == cs[..i][j];
    }
    if Kept(cs[i], at, ex) { assert cs[..i + 1][i] == cs[i]; }
    if KeepsAny(cs[..i + 1], at, ex) {
      var j :| 0 <= j < i + 1 && Kept(cs[..i + 1][j], at, ex);
      if j < i { assert cs[..i][j] == cs[..i + 1][j]; }
    }
  }
}
