/** The directory walk of 04.filedir/07_ftw.c.  What lstat, opendir and readdir report
    below the starting path is a finite tree, because links are not followed. */
module TreeWalk {
  const NAME_MAX := 255
  const PATH_MAX_GUESS := 1024

  datatype Kind = Regular | Block | Character | Fifo | Link | Socket

  /** `Directory` lists everything that readdir reports, "." and ".." included. */
  datatype Node =
    | StatFails
    | File(kind: Kind)
    | Unreadable
    | Directory(entries: seq<Entry>)

  datatype Entry = Entry(name: string, node: Node)

  /** The type argument of the callback, with the file kind from its stat argument. */
  datatype Type = FtwFile(kind: Kind) | FtwDirectory | FtwDirectoryReadError | FtwStatError

  datatype Call = Call(path: string, kind: Type)

  // ----- what the walk reports -----

  predicate Skipped(name: string) {
    name == "." || name == ".."
  }

  /** The callbacks at a node itself. */
  function Own(node: Node, path: string): seq<Call> {
    match node
    case StatFails => [Call(path, FtwStatError)]
    case File(kind) => [Call(path, FtwFile(kind))]
    case Unreadable => [Call(path, FtwDirectory), Call(path + "/", FtwDirectoryReadError)]
    case Directory(_) => [Call(path, FtwDirectory)]
  }

  function Preorder(node: Node, path: string): seq<Call>
    decreases node, 1
  {
    Own(node, path) + (if node.Directory? then PreorderAll(node.entries, path + "/") else [])
  }

  function PreorderAll(entries: seq<Entry>, prefix: string): seq<Call>
    decreases entries, 0
  {
    if entries == [] then []
    else
      (if Skipped(entries[0].name) then [] else Preorder(entries[0].node, prefix + entries[0].name))
      + PreorderAll(entries[1..], prefix)
  }

  lemma {:induction false} PreorderAllSnoc(entries: seq<Entry>, prefix: string, i: nat)
    requires i < |entries|
    ensures PreorderAll(entries[..i + 1], prefix) ==
            PreorderAll(entries[..i], prefix) +
            (if Skipped(entries[i].name) then [] else Preorder(entries[i].node, prefix + entries[i].name))
  {
    var shorter, longer := entries[..i], entries[..i + 1];
    if i == 0 {
      assert longer[1..] == [];
    } else {
      hide Preorder;
      PreorderAllSnoc(entries[1..], prefix, i - 1);
      assert longer[1..] == entries[1..][..i] && shorter[1..] == entries[1..][..i - 1];
      assert longer[0] == shorter[0] == entries[0];
    }
  }

  lemma NoEntries(entries: seq<Entry>, prefix: string)
    ensures PreorderAll(entries[..0], prefix) == []
  {
  }

  // ----- the same report, node by node -----

  /** The node at the end of a route: the positions of the entries to descend into. */
  ghost predicate Leads(node: Node, route: seq<nat>)
    decreases |route|
  {
    route == [] ||
    (node.Directory? && route[0] < |node.entries| && !Skipped(node.entries[route[0]].name)
     && Leads(node.entries[route[0]].node, route[1..]))
  }

  ghost function Target(node: Node, route: seq<nat>): Node
    requires Leads(node, route)
    decreases |route|
  {
    if route == [] then node else Target(node.entries[route[0]].node, route[1..])
  }

  ghost function TargetPath(node: Node, path: string, route: seq<nat>): string
    requires Leads(node, route)
    decreases |route|
  {
    if route == [] then path
    else TargetPath(node.entries[route[0]].node, path + "/" + node.entries[route[0]].name, route[1..])
  }

  ghost predicate Reports(node: Node, path: string, route: seq<nat>, c: Call) {
    Leads(node, route) && c in Own(Target(node, route), TargetPath(node, path, route))
  }

  lemma {:induction false} PreorderAllMembers(entries: seq<Entry>, prefix: string, c: Call)
    ensures c in PreorderAll(entries, prefix) <==>
            exists i :: 0 <= i < |entries| && !Skipped(entries[i].name)
                        && c in Preorder(entries[i].node, prefix + entries[i].name)
  {
    if entries == [] {
    } else {
      PreorderAllMembers(entries[1..], prefix, c);
      assert forall i :: 1 <= i < |entries| ==> entries[i] == entries[1..][i - 1];
    }
  }

  /** The walk reports exactly the calls of the nodes that some route leads to, each
      with its slash-joined path. */
  lemma {:induction false} PreorderReportsEveryNode(node: Node, path: string, c: Call)
    ensures c in Preorder(node, path) <==> exists route :: Reports(node, path, route, c)
    decreases node
  {
    hide PreorderAll, Own;
    if node.Directory? {
      PreorderAllMembers(node.entries, path + "/", c);
      forall i | 0 <= i < |node.entries|
        ensures c in Preorder(node.entries[i].node, path + "/" + node.entries[i].name) <==>
                exists route :: Reports(node.entries[i].node, path + "/" + node.entries[i].name, route, c)
      {
        PreorderReportsEveryNode(node.entries[i].node, path + "/" + node.entries[i].name, c);
      }
    }
    if c in Own(node, path) {
      assert Reports(node, path, [], c);
    } else if c in Preorder(node, path) {
      var i :| 0 <= i < |node.entries| && !Skipped(node.entries[i].name)
               && c in Preorder(node.entries[i].node, path + "/" + node.entries[i].name);
      var route :| Reports(node.entries[i].node, path + "/" + node.entries[i].name, route, c);
      assert ([i] + route)[1..] == route;
      assert Reports(node, path, [i] + route, c);
    }
    if route :| Reports(node, path, route, c) {
      if route != [] {
        assert Reports(node.entries[route[0]].node, path + "/" + node.entries[route[0]].name, route[1..], c);
      }
    }
  }

  // ----- what is left out, and what is not -----

  lemma {:induction false} PreorderAllConcat(a: seq<Entry>, b: seq<Entry>, prefix: string)
    ensures PreorderAll(a + b, prefix) == PreorderAll(a, prefix) + PreorderAll(b, prefix)
  {
    hide Preorder;
    if a == [] {
      assert a + b == b;
    } else {
      assert (a + b)[1..] == a[1..] + b && (a + b)[0] == a[0];
      PreorderAllConcat(a[1..], b, prefix);
    }
  }

  lemma PreorderOfOne(e: Entry, prefix: string)
    ensures PreorderAll([e], prefix) ==
            if e.name == "." || e.name == ".." then [] else Preorder(e.node, prefix + e.name)
  {
    hide Preorder;
    assert [e][1..] == [];
  }

  /** An entry whose name is neither "." nor ".." is walked, in one stretch of the calls of
      its directory. */
  lemma EveryOtherEntryIsWalked(node: Node, path: string, i: nat) returns (k: nat)
    requires node.Directory? && i < |node.entries|
    requires node.entries[i].name != "." && node.entries[i].name != ".."
    ensures var calls := Preorder(node.entries[i].node, path + "/" + node.entries[i].name);
            k + |calls| <= |Preorder(node, path)| && Preorder(node, path)[k..k + |calls|] == calls
  {
    var entries, prefix := node.entries, path + "/";
    var a, e, b := entries[..i], entries[i], entries[i + 1..];
    assert entries == a + ([e] + b);
    PreorderAllConcat(a, [e] + b, prefix);
    PreorderAllConcat([e], b, prefix);
    PreorderOfOne(e, prefix);
    k := |Own(node, path)| + |PreorderAll(a, prefix)|;
  }

  /** An entry named "." or ".." makes no difference, whatever it leads to. */
  lemma DotsMakeNoDifference(a: seq<Entry>, e: Entry, b: seq<Entry>, path: string)
    requires e.name == "." || e.name == ".."
    ensures Preorder(Directory(a + [e] + b), path) == Preorder(Directory(a + b), path)
  {
    PreorderAllConcat(a + [e], b, path + "/");
    PreorderAllConcat(a, [e], path + "/");
    PreorderAllConcat(a, b, path + "/");
    PreorderOfOne(e, path + "/");
    hide PreorderAll;
  }

  /** The calls of a node at the path `p`, from position `k` on. */
  ghost predicate CallsAt(calls: seq<Call>, k: nat, node: Node, p: string) {
    && k < |calls|
    && match node
       case StatFails => calls[k] == Call(p, FtwStatError)
       case File(kind) => calls[k] == Call(p, FtwFile(kind))
       case Directory(_) => calls[k] == Call(p, FtwDirectory)
       case Unreadable =>
         && calls[k] == Call(p, FtwDirectory)
         && k + 1 < |calls| && calls[k + 1] == Call(p + "/", FtwDirectoryReadError)
  }

  lemma CallsAtLater(calls: seq<Call>, stretch: seq<Call>, at: nat, k: nat, node: Node, p: string)
    requires at + |stretch| <= |calls| && calls[at..at + |stretch|] == stretch && CallsAt(stretch, k, node, p)
    ensures CallsAt(calls, at + k, node, p)
  {
    assert forall j :: 0 <= j < |stretch| ==> stretch[j] == calls[at + j];
  }

  /** The calls at the end of each route, spelled out. */
  lemma {:induction false} RouteIsReported(node: Node, path: string, route: seq<nat>) returns (k: nat)
    requires Leads(node, route)
    ensures CallsAt(Preorder(node, path), k, Target(node, route), TargetPath(node, path, route))
    decreases |route|
  {
    if route == [] {
      k := 0;
    } else {
      hide CallsAt, Preorder;
      var i := route[0];
      var name := node.entries[i].name;
      var at := EveryOtherEntryIsWalked(node, path, i);
      k := RouteIsReported(node.entries[i].node, path + "/" + name, route[1..]);
      CallsAtLater(Preorder(node, path), Preorder(node.entries[i].node, path + "/" + name), at, k,
                   Target(node, route), TargetPath(node, path, route));
      k := at + k;
    }
  }

  /** A path is the starting path followed by a slash and a name for each entry. */
  lemma {:induction false} TargetPathJoins(node: Node, path: string, route: seq<nat>, i: nat)
    requires Leads(node, route + [i])
    ensures Leads(node, route) && Target(node, route).Directory? && i < |Target(node, route).entries|
    ensures TargetPath(node, path, route + [i]) ==
            TargetPath(node, path, route) + "/" + Target(node, route).entries[i].name
    decreases |route|
  {
    if route == [] {
      assert route + [i] == [i] && [i][1..] == [];
    } else {
      assert (route + [i])[1..] == route[1..] + [i];
      TargetPathJoins(node.entries[route[0]].node, path + "/" + node.entries[route[0]].name, route[1..], i);
    }
  }

  // ----- in which order -----

  /** The call number `k` at the node that a route leads to. */
  datatype Visit = Visit(route: seq<nat>, k: nat)

  /** Lexicographic order: a node before what is below it, and the entries of a directory
      in the order in which readdir reports them. */
  ghost predicate RouteBefore(a: seq<nat>, b: seq<nat>)
    decreases |a|
  {
    b != [] && (a == [] || a[0] < b[0] || (a[0] == b[0] && RouteBefore(a[1..], b[1..])))
  }

  ghost predicate VisitBefore(a: Visit, b: Visit) {
    RouteBefore(a.route, b.route) || (a.route == b.route && a.k < b.k)
  }

  lemma {:induction false} RoutesAreOrdered(a: seq<nat>, b: seq<nat>)
    ensures RouteBefore(a, b) ==> !RouteBefore(b, a) && a != b
    ensures RouteBefore(a, b) || RouteBefore(b, a) || a == b
    decreases |a|
  {
    if a == [] || b == [] {
    } else {
      RoutesAreOrdered(a[1..], b[1..]);
      assert a == [a[0]] + a[1..] && b == [b[0]] + b[1..];
    }
  }

  /** Of two visits exactly one is before the other: they have one listing in order. */
  lemma VisitsAreOrdered(a: Visit, b: Visit)
    ensures VisitBefore(a, b) ==> !VisitBefore(b, a) && a != b
    ensures VisitBefore(a, b) || VisitBefore(b, a) || a == b
  {
    RoutesAreOrdered(a.route, b.route);
  }

  ghost predicate IsVisit(node: Node, v: Visit) {
    Leads(node, v.route) && v.k < |Own(Target(node, v.route), "")|
  }

  ghost function CallAt(node: Node, path: string, v: Visit): Call
    requires IsVisit(node, v)
  {
    Own(Target(node, v.route), TargetPath(node, path, v.route))[v.k]
  }

  ghost predicate InOrder(visits: seq<Visit>) {
    forall i, j :: 0 <= i < j < |visits| ==> VisitBefore(visits[i], visits[j])
  }

  ghost predicate Matches(node: Node, path: string, visits: seq<Visit>, calls: seq<Call>) {
    && |calls| == |visits|
    && forall i :: 0 <= i < |visits| ==> IsVisit(node, visits[i]) && calls[i] == CallAt(node, path, visits[i])
  }

  /** A visit in the entry's tree, as one in the directory's. */
  ghost function Under(i: nat, v: Visit): Visit {
    Visit([i] + v.route, v.k)
  }

  lemma UnderIsVisit(node: Node, path: string, i: nat, v: Visit)
    requires node.Directory? && i < |node.entries| && !Skipped(node.entries[i].name)
    ensures IsVisit(node, Under(i, v)) <==> IsVisit(node.entries[i].node, v)
    ensures IsVisit(node.entries[i].node, v) ==>
              CallAt(node, path, Under(i, v)) ==
              CallAt(node.entries[i].node, path + "/" + node.entries[i].name, v)
  {
    hide Own;
    assert ([i] + v.route)[1..] == v.route;
  }

  lemma UnderKeepsOrder(i: nat, a: Visit, b: Visit)
    ensures VisitBefore(Under(i, a), Under(i, b)) <==> VisitBefore(a, b)
  {
    assert ([i] + a.route)[1..] == a.route && ([i] + b.route)[1..] == b.route;
  }

  /** The visits below entry `i`. */
  lemma EntryVisits(node: Node, path: string, i: nat, sub: seq<Visit>, calls: seq<Call>) returns (visits: seq<Visit>)
    requires node.Directory? && i < |node.entries| && !Skipped(node.entries[i].name)
    requires forall v :: v in sub <==> IsVisit(node.entries[i].node, v)
    requires InOrder(sub) && Matches(node.entries[i].node, path + "/" + node.entries[i].name, sub, calls)
    ensures forall v :: v in visits <==> IsVisit(node, v) && v.route != [] && v.route[0] == i
    ensures InOrder(visits) && Matches(node, path, visits, calls)
  {
    hide IsVisit, CallAt, VisitBefore;
    visits := seq(|sub|, k requires 0 <= k < |sub| => Under(i, sub[k]));
    forall v | v in visits
      ensures IsVisit(node, v) && v.route != [] && v.route[0] == i
    {
      var k :| 0 <= k < |sub| && v == Under(i, sub[k]);
      UnderIsVisit(node, path, i, sub[k]);
    }
    forall v | IsVisit(node, v) && v.route != [] && v.route[0] == i
      ensures v in visits
    {
      var w := Visit(v.route[1..], v.k);
      assert v == Under(i, w) by { assert v.route == [i] + v.route[1..]; }
      UnderIsVisit(node, path, i, w);
      var k :| 0 <= k < |sub| && sub[k] == w;
      assert visits[k] == v;
    }
    forall k | 0 <= k < |sub|
      ensures IsVisit(node, visits[k]) && calls[k] == CallAt(node, path, visits[k])
    {
      UnderIsVisit(node, path, i, sub[k]);
    }
    forall j, k | 0 <= j < k < |sub|
      ensures VisitBefore(visits[j], visits[k])
    {
      UnderKeepsOrder(i, sub[j], sub[k]);
    }
  }

  /** Two stretches of a listing, the second of which comes later throughout. */
  lemma InOrderConcat(node: Node, path: string, a: seq<Visit>, b: seq<Visit>, calls: seq<Call>, more: seq<Call>)
    requires InOrder(a) && InOrder(b) && forall v, w :: v in a && w in b ==> VisitBefore(v, w)
    requires Matches(node, path, a, calls) && Matches(node, path, b, more)
    ensures InOrder(a + b) && Matches(node, path, a + b, calls + more)
  {
    hide IsVisit, CallAt, VisitBefore;
  }

  /** The visits below the entries from `i` on. */
  lemma {:induction false} TailVisits(node: Node, path: string, i: nat) returns (visits: seq<Visit>)
    requires node.Directory? && i <= |node.entries|
    ensures forall v :: v in visits <==> IsVisit(node, v) && v.route != [] && v.route[0] >= i
    ensures InOrder(visits) && Matches(node, path, visits, PreorderAll(node.entries[i..], path + "/"))
    decreases node, 0, |node.entries| - i
  {
    hide Preorder, Own, TargetPath, CallAt;
    if i == |node.entries| {
      visits := [];
    } else {
      var entry := node.entries[i];
      visits := TailVisits(node, path, i + 1);
      assert node.entries[i..][1..] == node.entries[i + 1..];
      if !Skipped(entry.name) {
        var sub := PreorderIsInOrder(entry.node, path + "/" + entry.name);
        var calls := Preorder(entry.node, path + "/" + entry.name);
        var first := EntryVisits(node, path, i, sub, calls);
        InOrderConcat(node, path, first, visits, calls, PreorderAll(node.entries[i + 1..], path + "/"));
        visits := first + visits;
      }
    }
  }

  /** The calls in their order are the visits in lexicographic order, each once: a parent
      comes before its entries, and an entry with all that is below it before the next. */
  lemma {:induction false} PreorderIsInOrder(node: Node, path: string) returns (visits: seq<Visit>)
    ensures forall v :: v in visits <==> IsVisit(node, v)
    ensures InOrder(visits) && Matches(node, path, visits, Preorder(node, path))
    decreases node, 1, 0
  {
    hide PreorderAll;
    var own := Own(node, path);
    visits := seq(|own|, (k: nat) => Visit([], k));
    assert forall k :: 0 <= k < |own| ==> visits[k] == Visit([], k) && IsVisit(node, visits[k]);
    if node.Directory? {
      var tail := TailVisits(node, path, 0);
      assert node.entries[0..] == node.entries;
      InOrderConcat(node, path, visits, tail, own, PreorderAll(node.entries, path + "/"));
      visits := visits + tail;
    }
  }

  // ----- how many of each -----

  function CallsOf(calls: seq<Call>, kind: Type): nat {
    if calls == [] then 0 else (if calls[0].kind == kind then 1 else 0) + CallsOf(calls[1..], kind)
  }

  lemma {:induction false} CallsOfConcat(a: seq<Call>, b: seq<Call>, kind: Type)
    ensures CallsOf(a + b, kind) == CallsOf(a, kind) + CallsOf(b, kind)
  {
    if a == [] {
      assert a + b == b;
    } else {
      assert (a + b)[1..] == a[1..] + b;
      CallsOfConcat(a[1..], b, kind);
    }
  }

  /** The nodes of the tree that the callback sees with the given type. */
  function NodesOf(node: Node, kind: Type): nat
    decreases node, 1
  {
    match node
    case StatFails => if kind.FtwStatError? then 1 else 0
    case File(k) => if kind == FtwFile(k) then 1 else 0
    case Unreadable => if kind.FtwDirectory? || kind.FtwDirectoryReadError? then 1 else 0
    case Directory(entries) => (if kind.FtwDirectory? then 1 else 0) + NodesOfAll(entries, kind)
  }

  function NodesOfAll(entries: seq<Entry>, kind: Type): nat
    decreases entries, 0
  {
    if entries == [] then 0
    else (if Skipped(entries[0].name) then 0 else NodesOf(entries[0].node, kind)) + NodesOfAll(entries[1..], kind)
  }

  lemma {:induction false} PreorderCounts(node: Node, path: string, kind: Type)
    ensures CallsOf(Preorder(node, path), kind) == NodesOf(node, kind)
    decreases node, 1
  {
    var own := Own(node, path);
    assert |own| == 2 ==> own[1..] == [own[1]] && own[1..][1..] == [];
    assert CallsOf(own, kind) == (if own[0].kind == kind then 1 else 0) + CallsOf(own[1..], kind);
    if node.Directory? {
      PreorderAllCounts(node.entries, path + "/", kind);
      CallsOfConcat(own, PreorderAll(node.entries, path + "/"), kind);
    } else {
      assert own + [] == own;
    }
  }

  lemma {:induction false} PreorderAllCounts(entries: seq<Entry>, prefix: string, kind: Type)
    ensures CallsOf(PreorderAll(entries, prefix), kind) == NodesOfAll(entries, kind)
    decreases entries, 0
  {
    if entries == [] {
    } else {
      PreorderAllCounts(entries[1..], prefix, kind);
      var first := if Skipped(entries[0].name) then [] else Preorder(entries[0].node, prefix + entries[0].name);
      if !Skipped(entries[0].name) {
        PreorderCounts(entries[0].node, prefix + entries[0].name, kind);
      }
      CallsOfConcat(first, PreorderAll(entries[1..], prefix), kind);
    }
  }

  /** What ndir counts: line 125 falls through from the files to the directories. */
  ghost function DirCount(node: Node): nat {
    NodesOf(node, FtwDirectory)
    + NodesOf(node, FtwFile(Regular)) + NodesOf(node, FtwFile(Block)) + NodesOf(node, FtwFile(Character))
    + NodesOf(node, FtwFile(Fifo)) + NodesOf(node, FtwFile(Link)) + NodesOf(node, FtwFile(Socket))
  }

  ghost predicate HasNoFiles(node: Node) {
    forall kind :: NodesOf(node, FtwFile(kind)) == 0
  }

  /** ndir is the number of directories exactly if there are no files of any kind. */
  lemma DirCountIsRightExactly(node: Node)
    ensures DirCount(node) == NodesOf(node, FtwDirectory) <==> HasNoFiles(node)
  {
    if DirCount(node) == NodesOf(node, FtwDirectory) {
      forall kind: Kind
        ensures NodesOf(node, FtwFile(kind)) == 0
      {
        match kind
        case Regular =>
        case Block =>
        case Character =>
        case Fifo =>
        case Link =>
        case Socket =>
      }
    }
  }

  /** A directory with one file in it counts as two. */
  lemma DirCountOfOneFile()
    ensures var node := Directory([Entry("a", File(Regular))]);
            NodesOf(node, FtwDirectory) == 1 && DirCount(node) == 2
  {
    var node := Directory([Entry("a", File(Regular))]);
    assert forall kind :: NodesOfAll(node.entries, kind) ==
                          NodesOf(File(Regular), kind) + NodesOfAll(node.entries[1..], kind);
  }

  // ----- the buffer -----

  /** dopath doubles the buffer at most once for each directory.  Once is enough for
      every string that fits exactly if the buffer has more than NAME_MAX bytes. */
  function Grown(pathLen: nat, n: nat): nat {
    if n + NAME_MAX + 2 > pathLen then pathLen * 2 else pathLen
  }

  lemma OneDoublingIsEnoughExactly(pathLen: nat)
    requires pathLen > 0
    ensures (forall n :: 0 <= n < pathLen ==> n + NAME_MAX + 2 <= Grown(pathLen, n)) <==> pathLen > NAME_MAX
  {
    if pathLen <= NAME_MAX {
      var n := pathLen - 1;
      assert n + NAME_MAX + 2 > Grown(pathLen, n);
    }
  }

  /** The length of the longest directory path that the walk makes from a path of length
      `n`; 0 if it comes to no directory. */
  function LongestDirectory(node: Node, n: nat): nat
    decreases node, 1
  {
    match node
    case Directory(entries) => Max(n, LongestBelow(entries, n + 1))
    case Unreadable => n
    case _ => 0
  }

  function LongestBelow(entries: seq<Entry>, n: nat): nat
    decreases entries, 0
  {
    if entries == [] then 0
    else
      var rest := LongestBelow(entries[1..], n);
      if Skipped(entries[0].name) then rest
      else Max(LongestDirectory(entries[0].node, n + |entries[0].name|), rest)
  }

  function Max(a: nat, b: nat): nat {
    if a > b then a else b
  }

  lemma {:induction false} LongestBelowEach(entries: seq<Entry>, n: nat, i: nat)
    requires i < |entries| && !Skipped(entries[i].name)
    ensures LongestDirectory(entries[i].node, n + |entries[i].name|) <= LongestBelow(entries, n)
  {
    hide LongestDirectory;
    if i == 0 {
    } else {
      LongestBelowEach(entries[1..], n, i - 1);
    }
  }

  predicate OpensDirectory(node: Node) {
    node.Directory? || node.Unreadable?
  }

  lemma {:induction false} LongestBelowIsOne(entries: seq<Entry>, n: nat) returns (i: nat)
    requires LongestBelow(entries, n) > 0
    ensures i < |entries| && !Skipped(entries[i].name)
    ensures LongestBelow(entries, n) == LongestDirectory(entries[i].node, n + |entries[i].name|)
  {
    hide LongestDirectory;
    i := 0;
    if LongestBelow(entries, n) == LongestBelow(entries[1..], n) {
      i := LongestBelowIsOne(entries[1..], n);
      i := i + 1;
    }
  }

  /** No directory that a route leads to has a longer path. */
  lemma {:induction false} NoneIsLonger(node: Node, path: string, route: seq<nat>)
    requires Leads(node, route) && OpensDirectory(Target(node, route))
    ensures |TargetPath(node, path, route)| <= LongestDirectory(node, |path|)
    decreases |route|
  {
    if route == [] {
    } else {
      var entry := node.entries[route[0]];
      NoneIsLonger(entry.node, path + "/" + entry.name, route[1..]);
      hide LongestBelow;
      LongestBelowEach(node.entries, |path| + 1, route[0]);
    }
  }

  /** And one has exactly that. */
  lemma {:induction false} OneIsThatLong(node: Node, path: string) returns (route: seq<nat>)
    requires OpensDirectory(node)
    ensures Leads(node, route) && OpensDirectory(Target(node, route))
    ensures |TargetPath(node, path, route)| == LongestDirectory(node, |path|)
    decreases node
  {
    if LongestDirectory(node, |path|) == |path| {
      route := [];
    } else {
      var i := LongestBelowIsOne(node.entries, |path| + 1);
      var entry := node.entries[i];
      hide LongestBelow;
      var rest := OneIsThatLong(entry.node, path + "/" + entry.name);
      route := [i] + rest;
      assert route[1..] == rest;
    }
  }

  /** The buffer does not grow without need: not at all if it has room for the longest
      directory path with a slash, a name and the terminator, and else to less than twice
      that. */
  predicate GrownForNeed(before: nat, after: nat, longest: nat) {
    && before <= after
    && (longest + NAME_MAX + 2 <= before ==> after == before)
    && (after == before || after < 2 * (longest + NAME_MAX + 2))
  }

  lemma NotGrown(before: nat, longest: nat)
    ensures GrownForNeed(before, before, longest)
  {
  }

  lemma GrownOnly(before: nat, after: nat, longest: nat)
    requires GrownForNeed(before, after, longest)
    ensures before <= after
  {
  }

  lemma GrownAgain(before: nat, between: nat, after: nat, longest: nat, next: nat)
    requires GrownForNeed(before, between, longest) && GrownForNeed(between, after, next) && next <= longest
    ensures GrownForNeed(before, after, longest)
  {
  }

  /** It grows exactly if there is no room for a slash, the longest name and the
      terminator behind `n` characters. */
  lemma GrownExactly(pathLen: nat, n: nat)
    ensures n + NAME_MAX + 2 <= pathLen ==> Grown(pathLen, n) == pathLen
    ensures n + NAME_MAX + 2 > pathLen ==> Grown(pathLen, n) == 2 * pathLen
    ensures GrownForNeed(pathLen, Grown(pathLen, n), n)
  {
  }

  datatype Option<T> = None | Some(value: T)

  /** The size that path_alloc allocates: `pathMax` is PATH_MAX or 0, `limit` what
      pathconf returns.  None is its exit when pathconf fails with an error. */
  function PathAlloc(pathMax: nat, limit: int, errno: int, posixVersion: int, xsiVersion: int): Option<nat> {
    var max :=
      if pathMax != 0 then Some(pathMax)
      else if limit >= 0 then Some(limit + 1)
      else if errno == 0 then Some(PATH_MAX_GUESS) else None;
    if max.None? then None
    else if posixVersion < 200112 && xsiVersion < 4 then Some(max.value + 1) else max
  }

  /** The smallest limit that POSIX allows, 256, makes the buffer large enough. */
  lemma PathAllocIsEnough(pathMax: nat, limit: int, errno: int, posixVersion: int, xsiVersion: int)
    requires pathMax == 0 || pathMax >= 256
    requires limit < 0 || limit >= 256
    ensures var size := PathAlloc(pathMax, limit, errno, posixVersion, xsiVersion);
            if size.Some? then size.value > NAME_MAX else pathMax == 0 && limit < 0 && errno != 0
  {
  }

  /** The longest path that the limit allows: PATH_MAX counts the terminator, but may not
      do so before POSIX.1-2001; what pathconf reports does not count it. */
  function LongestAllowed(pathMax: nat, limit: int, posixVersion: int, xsiVersion: int): int {
    if pathMax != 0 then if posixVersion < 200112 && xsiVersion < 4 then pathMax else pathMax - 1
    else if limit >= 0 then limit
    else PATH_MAX_GUESS - 1
  }

  /** The buffer holds each path that the limit allows, with its terminator, and at most
      one byte more. */
  lemma PathAllocHoldsEveryPath(pathMax: nat, limit: int, errno: int, posixVersion: int, xsiVersion: int)
    ensures var size := PathAlloc(pathMax, limit, errno, posixVersion, xsiVersion);
            var longest := LongestAllowed(pathMax, limit, posixVersion, xsiVersion);
            && (size.None? <==> pathMax == 0 && limit < 0 && errno != 0)
            && (size.Some? ==> longest + 1 <= size.value <= longest + 2)
            && (size.Some? ==> forall path: string :: |path| <= longest ==> |path| < size.value)
  {
  }

  /** The string has no terminator in it, as a C string or a directory entry's name. */
  predicate CString(s: string) {
    '\0' !in s
  }

  /** Every name that can be met on the way has at most NAME_MAX bytes. */
  predicate Named(node: Node) {
    node.Directory? ==>
      forall i :: 0 <= i < |node.entries| ==>
        CString(node.entries[i].name) && |node.entries[i].name| <= NAME_MAX && Named(node.entries[i].node)
  }

  /** What the buffer holds when dopath returns: an unreadable directory's path keeps
      the slash that was appended for opendir. */
  function PathAfter(node: Node, path: string): string {
    if node.Unreadable? then path + "/" else path
  }

  /** What lstat, opendir and readdir say about each path. */
  type FileSystem = string -> Node

  /** At a path the file system has a node, and its entries below. */
  ghost predicate Contains(files: FileSystem, path: string, node: Node)
    decreases node
  {
    && files(path) == node
    && (node.Directory? ==>
          forall i :: 0 <= i < |node.entries| && !Skipped(node.entries[i].name) ==>
            Contains(files, path + "/" + node.entries[i].name, node.entries[i].node))
  }

  method StrLen(a: array<char>, ghost path: string) returns (n: nat)
    requires CString(path) && |path| < a.Length && a[..|path|] == path && a[|path|] == '\0'
    ensures n == |path|
  {
    n := 0;
    while a[n] != '\0'
      invariant n <= |path|
      decreases |path| - n
    {
      assert a[n] == a[..|path|][n];
      n := n + 1;
    }
  }

  /** strcpy to position `at`. */
  method StrCpy(a: array<char>, at: nat, s: string)
    requires at + |s| < a.Length
    modifies a
    ensures a[..at] == old(a[..at]) && a[at..at + |s|] == s && a[at + |s|] == '\0'
  {
    for k := 0 to |s|
      invariant a[..at] == old(a[..at]) && a[at..at + k] == s[..k]
    {
      a[at + k] := s[k];
    }
    a[at + |s|] := '\0';
  }

  method Realloc(a: array<char>, size: nat) returns (b: array<char>)
    requires size >= a.Length
    ensures fresh(b) && b.Length == size && b[..a.Length] == a[..]
  {
    b := new char[size];
    for k := 0 to a.Length
      invariant b[..k] == a[..k]
    {
      b[k] := a[k];
    }
  }

  class Walk {
    const files: FileSystem
    var fullPath: array<char>
    var pathLen: nat
    var nreg: nat
    var ndir: nat
    var nblk: nat
    var nchr: nat
    var nfifo: nat
    var nslink: nat
    var nsock: nat
    /** The callbacks so far. */
    ghost var calls: seq<Call>

    constructor (files: FileSystem)
      ensures this.files == files && calls == [] && Counted()
    {
      this.files := files;
      fullPath, pathLen := new char[0], 0;
      nreg, ndir, nblk, nchr, nfifo, nslink, nsock, calls := 0, 0, 0, 0, 0, 0, 0, [];
    }

    /** The buffer holds the string `path`. */
    ghost predicate Holds(path: string)
      reads this, fullPath
    {
      && pathLen == fullPath.Length
      && CString(path) && |path| < pathLen
      && fullPath[..|path|] == path && fullPath[|path|] == '\0'
    }

    /** The counters are those of the callbacks made; line 125 falls through, so `ndir`
        counts the files as well. */
    ghost predicate Counted()
      reads this
    {
      && nreg == CallsOf(calls, FtwFile(Regular)) && nblk == CallsOf(calls, FtwFile(Block))
      && nchr == CallsOf(calls, FtwFile(Character)) && nfifo == CallsOf(calls, FtwFile(Fifo))
      && nslink == CallsOf(calls, FtwFile(Link)) && nsock == CallsOf(calls, FtwFile(Socket))
      && ndir == CallsOf(calls, FtwDirectory) + nreg + nblk + nchr + nfifo + nslink + nsock
    }

    /** The callback: it counts, and always returns 0. */
    method MyFunc(kind: Type, ghost path: string) returns (ret: int)
      requires Holds(path) && Counted()
      modifies this`calls, this`nreg, this`ndir, this`nblk, this`nchr, this`nfifo, this`nslink, this`nsock
      ensures ret == 0 && calls == old(calls) + [Call(path, kind)] && Counted()
    {
      CallsOfLast(calls, Call(path, kind));
      calls := calls + [Call(path, kind)];
      match kind {
        case FtwFile(k) =>
          match k {
            case Regular => nreg := nreg + 1;
            case Block => nblk := nblk + 1;
            case Character => nchr := nchr + 1;
            case Fifo => nfifo := nfifo + 1;
            case Link => nslink := nslink + 1;
            case Socket => nsock := nsock + 1;
          }
          ndir := ndir + 1;
        case FtwDirectory => ndir := ndir + 1;
        case _ =>
      }
      ret := 0;
    }

    /** The buffer begins with the directory's path and slash, and has room for any name. */
    ghost predicate HasRoom(prefix: string)
      reads this, fullPath
    {
      && pathLen == fullPath.Length
      && CString(prefix) && |prefix| + NAME_MAX + 1 <= pathLen
      && fullPath[..|prefix|] == prefix
    }

    /** Lines 72-81: make room and append the slash. */
    method AppendSlash(ghost path: string) returns (n: nat)
      requires Holds(path) && pathLen > NAME_MAX && Counted()
      modifies this`fullPath, this`pathLen, fullPath
      ensures Counted()
      ensures n == |path| + 1 && Holds(path + "/") && HasRoom(path + "/")
      ensures pathLen == Grown(old(pathLen), |path|)
      ensures fullPath == old(fullPath) || fresh(fullPath)
    {
      n := StrLen(fullPath, path);
      if n + NAME_MAX + 2 > pathLen {
        pathLen := pathLen * 2;
        fullPath := Realloc(fullPath, pathLen);
        assert fullPath[..n] == path;
      }
      fullPath[n] := '/';
      n := n + 1;
      fullPath[n] := '\0';
    }

    method AppendName(n: nat, name: string, ghost prefix: string)
      requires HasRoom(prefix) && n == |prefix| && CString(name) && |name| <= NAME_MAX
      modifies fullPath
      ensures Holds(prefix + name)
    {
      StrCpy(fullPath, n, name);
    }

    lemma StillHasRoom(prefix: string, name: string, node: Node)
      requires Holds(PathAfter(node, prefix + name)) && |prefix| + NAME_MAX + 1 <= pathLen
      ensures HasRoom(prefix)
    {
      assert fullPath[..|prefix|] == fullPath[..|PathAfter(node, prefix + name)|][..|prefix|];
      assert forall c :: c in prefix ==> c in PathAfter(node, prefix + name);
    }

    /** lstat of the path in the buffer. */
    method Stat(ghost path: string) returns (node: Node)
      requires Holds(path)
      ensures node == files(path)
    {
      var n := StrLen(fullPath, path);
      node := files(fullPath[..n]);
    }

    /** opendir of the path in the buffer, which ends in a slash, and what readdir reports. */
    method OpenDirectory(ghost path: string) returns (entries: Option<seq<Entry>>)
      requires Holds(path + "/")
      ensures entries == if files(path).Directory? then Some(files(path).entries) else None
    {
      var n := StrLen(fullPath, path + "/");
      assert fullPath[..n - 1] == fullPath[..n][..n - 1] == path;
      var node := files(fullPath[..n - 1]);
      entries := if node.Directory? then Some(node.entries) else None;
    }

    lemma NodeAt(path: string, node: Node)
      requires Contains(files, path, node)
      ensures files(path) == node
    {
    }

    /** Lines 87-88: append the name and walk what it leads to. */
    method WalkEntry(name: string, n: nat, ghost node: Node, ghost prefix: string) returns (ret: int)
      requires HasRoom(prefix) && n == |prefix| && CString(name) && |name| <= NAME_MAX
      requires Contains(files, prefix + name, node) && Named(node) && Counted()
      modifies this, fullPath
      ensures ret == 0 && Counted() && calls == old(calls) + Preorder(node, prefix + name)
      ensures HasRoom(prefix) && GrownForNeed(old(pathLen), pathLen, LongestDirectory(node, n + |name|))
      ensures fullPath == old(fullPath) || fresh(fullPath)
      decreases node, 2
    {
      hide Preorder, CallsOf, Counted, GrownForNeed, LongestDirectory, Contains, Named;
      AppendName(n, name, prefix);
      ret := DoPath(node, prefix + name);
      GrownOnly(old(pathLen), pathLen, LongestDirectory(node, n + |name|));
      StillHasRoom(prefix, name, node);
    }

    /** Lines 84-91: walk what readdir reports, then cut the slash off again. */
    method ReadDirectory(entries: seq<Entry>, n: nat, ghost node: Node, ghost path: string) returns (ret: int)
      requires node == Directory(entries) && Contains(files, path, node)
      requires Named(node) && n == |path| + 1 && HasRoom(path + "/")
      requires Counted()
      modifies this, fullPath
      ensures ret == 0 && Counted() && calls == old(calls) + PreorderAll(entries, path + "/")
      ensures Holds(path) && GrownForNeed(old(pathLen), pathLen, LongestBelow(entries, |path| + 1))
      ensures fullPath == old(fullPath) || fresh(fullPath)
      decreases node, 0
    {
      hide Preorder, PreorderAll, CallsOf, Counted, GrownForNeed, LongestBelow, LongestDirectory;
      ghost var prefix := path + "/";
      NoEntries(entries, prefix);
      NotGrown(pathLen, LongestBelow(entries, n));
      ret := 0;
      for i := 0 to |entries|
        invariant ret == 0 && Counted() && HasRoom(prefix)
        invariant GrownForNeed(old(pathLen), pathLen, LongestBelow(entries, n))
        invariant calls == old(calls) + PreorderAll(entries[..i], prefix)
        invariant fullPath == old(fullPath) || fresh(fullPath)
      {
        var entry := entries[i];
        PreorderAllSnoc(entries, prefix, i);
        if entry.name == "." || entry.name == ".." {
          continue;
        }
        LongestBelowEach(entries, n, i);
        ghost var size := pathLen;
        ret := WalkEntry(entry.name, n, entry.node, prefix);
        GrownAgain(old(pathLen), size, pathLen, LongestBelow(entries, n),
                   LongestDirectory(entry.node, n + |entry.name|));
        if ret != 0 {
          break;
        }
      }
      assert entries[..|entries|] == entries;
      fullPath[n - 1] := '\0';
    }

    /** dopath, when the buffer holds a path at which the file system has `node`. */
    method DoPath(ghost node: Node, ghost path: string) returns (ret: int)
      requires Holds(path) && Contains(files, path, node)
      requires Named(node) && Counted() && pathLen > NAME_MAX
      modifies this, fullPath
      ensures ret == 0 && Counted()
      ensures calls == old(calls) + Preorder(node, path)
      ensures Holds(PathAfter(node, path))
      ensures GrownForNeed(old(pathLen), pathLen, LongestDirectory(node, |path|))
      ensures fullPath == old(fullPath) || fresh(fullPath)
      decreases node, 1
    {
      hide PreorderAll, CallsOf, Counted, Contains, Named, LongestBelow;
      NodeAt(path, node);
      var found := Stat(path);
      if found.StatFails? {
        ret := MyFunc(FtwStatError, path);
        return;
      }
      if found.File? {
        ret := MyFunc(FtwFile(found.kind), path);
        return;
      }
      ret := MyFunc(FtwDirectory, path);
      if ret != 0 {
        return;
      }
      var n := AppendSlash(path);
      var entries := OpenDirectory(path);
      if entries.None? {
        ret := MyFunc(FtwDirectoryReadError, path + "/");
        return;
      }
      ret := ReadDirectory(entries.value, n, node, path);
    }

    /** myftw: `size` is what path_alloc returned. */
    method MyFtw(pathName: string, size: nat, ghost node: Node) returns (ret: int)
      requires CString(pathName) && Contains(files, pathName, node) && Named(node) && size > NAME_MAX
      requires Counted()
      modifies this
      ensures ret == 0 && Counted()
      ensures calls == old(calls) + Preorder(node, pathName)
      ensures Holds(if node.Unreadable? then pathName + "/" else pathName) && fresh(fullPath)
      ensures GrownForNeed(if size <= |pathName| then |pathName| * 2 else size, pathLen,
                           LongestDirectory(node, |pathName|))
      ensures old(calls) == [] ==>
                && nreg == NodesOf(node, FtwFile(Regular)) && nblk == NodesOf(node, FtwFile(Block))
                && nchr == NodesOf(node, FtwFile(Character)) && nfifo == NodesOf(node, FtwFile(Fifo))
                && nslink == NodesOf(node, FtwFile(Link)) && nsock == NodesOf(node, FtwFile(Socket))
                && ndir == DirCount(node)
                && (ndir == NodesOf(node, FtwDirectory) <==> HasNoFiles(node))
    {
      hide Preorder, CallsOf, NodesOf, DirCount, HasNoFiles, Contains, Named;
      pathLen := size;
      fullPath := new char[size];
      if pathLen <= |pathName| {
        pathLen := |pathName| * 2;
        fullPath := Realloc(fullPath, pathLen);
      }
      StrCpy(fullPath, 0, pathName);
      ret := DoPath(node, pathName);
      if old(calls) == [] {
        assert calls == Preorder(node, pathName);
        CountersOfTree(node, pathName);
      }
    }

    /** What the counters say when the calls were those of one tree. */
    lemma CountersOfTree(node: Node, path: string)
      requires Counted() && calls == Preorder(node, path)
      ensures nreg == NodesOf(node, FtwFile(Regular)) && nblk == NodesOf(node, FtwFile(Block))
      ensures nchr == NodesOf(node, FtwFile(Character)) && nfifo == NodesOf(node, FtwFile(Fifo))
      ensures nslink == NodesOf(node, FtwFile(Link)) && nsock == NodesOf(node, FtwFile(Socket))
      ensures ndir == DirCount(node)
      ensures ndir == NodesOf(node, FtwDirectory) <==> HasNoFiles(node)
    {
      hide Preorder, CallsOf, NodesOf, HasNoFiles;
      DirCountIsRightExactly(node);
      forall kind
        ensures CallsOf(calls, kind) == NodesOf(node, kind)
      {
        PreorderCounts(node, path, kind);
      }
    }
  }

  lemma CallsOfLast(calls: seq<Call>, c: Call)
    ensures forall kind :: CallsOf(calls + [c], kind) == CallsOf(calls, kind) + (if c.kind == kind then 1 else 0)
  {
    forall kind
      ensures CallsOf(calls + [c], kind) == CallsOf(calls, kind) + (if c.kind == kind then 1 else 0)
    {
      assert [c][1..] == [];
      CallsOfConcat(calls, [c], kind);
    }
  }
}
