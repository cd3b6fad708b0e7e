/** The tree of observed files. */
module Targets {
  import opened Events
  import opened Paths

  datatype FileType = Unknown | Fifo | CharDev | Directory | BlockDev | Normal | SymbolicLink | Sock

  /** The file type bits of st_mode (S_IFMT and its values). */
  function FileTypeOf(mode: int): FileType {
    var bits := mode / 0x1000 % 0x10;
    if bits == 0x1 then Fifo
    else if bits == 0x2 then CharDev
    else if bits == 0x4 then Directory
    else if bits == 0x6 then BlockDev
    else if bits == 0x8 then Normal
    else if bits == 0xA then SymbolicLink
    else if bits == 0xC then Sock
    else Unknown
  }

  /** The seven file types of Linux, whatever the permission bits. */
  lemma FileTypes(permissions: int)
    requires 0 <= permissions < 0x1000
    ensures FileTypeOf(0x1000 + permissions) == Fifo
    ensures FileTypeOf(0x2000 + permissions) == CharDev
    ensures FileTypeOf(0x4000 + permissions) == Directory
    ensures FileTypeOf(0x6000 + permissions) == BlockDev
    ensures FileTypeOf(0x8000 + permissions) == Normal
    ensures FileTypeOf(0xA000 + permissions) == SymbolicLink
    ensures FileTypeOf(0xC000 + permissions) == Sock
    ensures FileTypeOf(permissions) == Unknown
  {
  }

  class Target {
    const name: string
    const ftype: FileType
    ghost const madeAt: string // the path it was created with
    ghost const ack: Event
    var events: seq<Event>
    var children: seq<Target>
    ghost var history: seq<Obs> // every observation after the acknowledgement

    constructor (n: string, f: FileType, p: string, first: Event)
      ensures name == n && ftype == f && madeAt == p && ack == first
      ensures events == [first] && children == [] && history == [] && LogMatches()
    {
      name, ftype, madeAt, ack := n, f, p, first;
      events, children, history := [first], [], [];
    }

    /** The log is what its observations make of it. */
    ghost predicate LogMatches()
      reads this`events, this`history
    {
      events == Log(ack, history)
    }
  }

  /** A picture of a tree of targets: which objects it is made of. */
  datatype Shape = Shape(obj: Target, kids: seq<Shape>)

  ghost function Objs(sh: Shape): (s: seq<Target>)
    ensures sh.obj in s
    decreases sh
  {
    ObjsAll(sh.kids) + [sh.obj]
  }

  ghost function ObjsAll(kids: seq<Shape>): seq<Target>
    decreases kids
  {
    if kids == [] then [] else ObjsAll(kids[..|kids| - 1]) + Objs(kids[|kids| - 1])
  }

  ghost function ObjSet(sh: Shape): set<Target> {
    set o | o in Objs(sh)
  }

  ghost function ObjSetAll(kids: seq<Shape>): set<Target> {
    set o | o in ObjsAll(kids)
  }

  lemma ObjSetsSplit(kids: seq<Shape>)
    ensures kids != [] ==> ObjSetAll(kids) == ObjSetAll(kids[..|kids| - 1]) + ObjSet(kids[|kids| - 1])
  {
  }

  lemma ObjSetSplit(sh: Shape)
    ensures ObjSet(sh) == ObjSetAll(sh.kids) + {sh.obj}
  {
  }

  lemma {:induction false} KidWithin(kids: seq<Shape>, i: nat)
    requires i < |kids|
    ensures ObjSet(kids[i]) <= ObjSetAll(kids)
    decreases kids
  {
    ObjSetsSplit(kids);
    if i < |kids| - 1 {
      KidWithin(kids[..|kids| - 1], i);
    }
  }

  /** The heap agrees with the picture; only directories have children. */
  ghost predicate Linked(sh: Shape)
    reads ObjSet(sh)`children
    decreases sh
  {
    ObjSetSplit(sh);
    && '\0' !in sh.obj.name
    && |sh.obj.children| == |sh.kids|
    && (forall i :: 0 <= i < |sh.kids| ==> sh.obj.children[i] == sh.kids[i].obj)
    && (!sh.obj.ftype.Directory? ==> sh.kids == [])
    && LinkedAll(sh.kids)
  }

  ghost predicate LinkedAll(kids: seq<Shape>)
    reads ObjSetAll(kids)`children
    decreases kids
  {
    ObjSetsSplit(kids);
    kids != [] ==> LinkedAll(kids[..|kids| - 1]) && Linked(kids[|kids| - 1])
  }

  /** No object occurs twice. */
  ghost predicate Separate(sh: Shape)
    decreases sh
  {
    sh.obj !in ObjSetAll(sh.kids) && SeparateAll(sh.kids)
  }

  ghost predicate SeparateAll(kids: seq<Shape>)
    decreases kids
  {
    kids != [] ==>
      var front, last := kids[..|kids| - 1], kids[|kids| - 1];
      SeparateAll(front) && Separate(last) && ObjSetAll(front) !! ObjSet(last)
  }

  /** Every path of the walk fits the buffer. */
  ghost predicate Fits(sh: Shape, path: string)
    decreases sh
  {
    |Enter(path, sh.obj.name)| < MAX_PATH_SIZE && FitsAll(sh.kids, Enter(path, sh.obj.name))
  }

  ghost predicate FitsAll(kids: seq<Shape>, path: string)
    decreases kids
  {
    kids != [] ==> FitsAll(kids[..|kids| - 1], path) && Fits(kids[|kids| - 1], path)
  }

  lemma {:induction false} KidsAreFine(kids: seq<Shape>, path: string, i: nat)
    requires LinkedAll(kids) && FitsAll(kids, path) && i < |kids|
    ensures Linked(kids[i]) && Fits(kids[i], path)
    decreases kids
  {
    if i < |kids| - 1 {
      KidsAreFine(kids[..|kids| - 1], path, i);
    }
  }

  // ----- the walk -----

  /** One call of fs_target_event_track and what path() was then. */
  datatype Visit = Visit(target: Target, path: string)

  /** Children before their directory, and nothing for a target of unknown type. */
  ghost function Visits(sh: Shape, path: string): seq<Visit>
    decreases sh
  {
    var here := Enter(path, sh.obj.name);
    VisitsAll(sh.kids, here) + if sh.obj.ftype.Unknown? then [] else [Visit(sh.obj, here)]
  }

  ghost function VisitsAll(kids: seq<Shape>, path: string): seq<Visit>
    decreases kids
  {
    if kids == [] then [] else VisitsAll(kids[..|kids| - 1], path) + Visits(kids[|kids| - 1], path)
  }

  ghost function TargetsOf(visits: seq<Visit>): set<Target> {
    set i | 0 <= i < |visits| :: visits[i].target
  }

  ghost function Known(objs: set<Target>): set<Target> {
    set o | o in objs && !o.ftype.Unknown?
  }

  lemma TargetsOfSum(a: seq<Visit>, b: seq<Visit>)
    ensures TargetsOf(a + b) == TargetsOf(a) + TargetsOf(b)
  {
    forall o | o in TargetsOf(a) + TargetsOf(b)
      ensures o in TargetsOf(a + b)
    {
      if o in TargetsOf(a) {
        var i :| 0 <= i < |a| && a[i].target == o;
        assert (a + b)[i].target == o;
      } else {
        var i :| 0 <= i < |b| && b[i].target == o;
        assert (a + b)[|a| + i].target == o;
      }
    }
    forall o | o in TargetsOf(a + b)
      ensures o in TargetsOf(a) + TargetsOf(b)
    {
      var i :| 0 <= i < |a + b| && (a + b)[i].target == o;
      if i < |a| {
        assert a[i].target == o;
      } else {
        assert b[i - |a|].target == o;
      }
    }
  }

  ghost predicate Once(visits: seq<Visit>) {
    forall i, j :: 0 <= i < j < |visits| ==> visits[i].target != visits[j].target
  }

  lemma OnceSum(a: seq<Visit>, b: seq<Visit>)
    requires Once(a) && Once(b) && TargetsOf(a) !! TargetsOf(b)
    ensures Once(a + b)
  {
    var c := a + b;
    forall i, j | 0 <= i < j < |c|
      ensures c[i].target != c[j].target
    {
      if i < |a| && |a| <= j {
        assert c[i].target in TargetsOf(a) && c[j].target in TargetsOf(b);
      }
    }
  }

  /** A walk visits every target of known type exactly once. */
  lemma {:induction false} VisitsEachKnownOnce(sh: Shape, path: string)
    requires Separate(sh)
    ensures Once(Visits(sh, path))
    ensures TargetsOf(Visits(sh, path)) == Known(ObjSet(sh))
    decreases sh
  {
    hide Linked, LinkedAll, Enter;
    var here := Enter(path, sh.obj.name);
    VisitsAllEachKnownOnce(sh.kids, here);
    ObjSetSplit(sh);
    var own := if sh.obj.ftype.Unknown? then [] else [Visit(sh.obj, here)];
    assert TargetsOf(own) == Known({sh.obj}) by {
      if own != [] {
        assert own[0].target == sh.obj;
      }
    }
    TargetsOfSum(VisitsAll(sh.kids, here), own);
    OnceSum(VisitsAll(sh.kids, here), own);
  }

  lemma {:induction false} VisitsAllEachKnownOnce(kids: seq<Shape>, path: string)
    requires SeparateAll(kids)
    ensures Once(VisitsAll(kids, path))
    ensures TargetsOf(VisitsAll(kids, path)) == Known(ObjSetAll(kids))
    decreases kids
  {
    hide Linked, LinkedAll, Enter;
    if kids != [] {
      var front, last := kids[..|kids| - 1], kids[|kids| - 1];
      VisitsAllEachKnownOnce(front, path);
      VisitsEachKnownOnce(last, path);
      ObjSetsSplit(kids);
      TargetsOfSum(VisitsAll(front, path), Visits(last, path));
      OnceSum(VisitsAll(front, path), Visits(last, path));
    }
  }

  /** Following `names` down from `sh` leads to `sub`: they are the names of its ancestors, `sh` included. */
  ghost predicate LeadsTo(sh: Shape, names: seq<string>, sub: Shape)
    decreases names
  {
    if names == [] then sub == sh
    else names[0] == sh.obj.name && exists i :: 0 <= i < |sh.kids| && LeadsTo(sh.kids[i], names[1..], sub)
  }

  /** The path with all the names pushed. */
  function EnterAll(path: string, names: seq<string>): string
    decreases names
  {
    if names == [] then path else EnterAll(Enter(path, names[0]), names[1..])
  }

  lemma {:induction false} VisitsAllSplit(kids: seq<Shape>, path: string, i: nat) returns (after: seq<Visit>)
    requires i < |kids|
    ensures VisitsAll(kids, path) == VisitsAll(kids[..i], path) + Visits(kids[i], path) + after
    decreases kids
  {
    hide Visits;
    var n := |kids| - 1;
    if i == n {
      after := [];
    } else {
      after := VisitsAllSplit(kids[..n], path, i);
      assert kids[..n][..i] == kids[..i];
      after := after + Visits(kids[n], path);
    }
  }

  /**
   * The visits of a subtree are one stretch of the walk, its own root last in it, and they happen under the path that
   * the names of its ancestors lead to.
   */
  lemma {:induction false} SubtreeIsOneStretch(sh: Shape, path: string, names: seq<string>, sub: Shape)
      returns (before: seq<Visit>, after: seq<Visit>)
    requires LeadsTo(sh, names, sub)
    ensures Visits(sh, path) == before + Visits(sub, EnterAll(path, names)) + after
    decreases sh
  {
    hide Enter, VisitsAll;
    if names == [] {
      before, after := [], [];
    } else {
      var here := Enter(path, sh.obj.name);
      var i :| 0 <= i < |sh.kids| && LeadsTo(sh.kids[i], names[1..], sub);
      before, after := SubtreeIsOneStretch(sh.kids[i], here, names[1..], sub);
      var others := VisitsAllSplit(sh.kids, here, i);
      before := VisitsAll(sh.kids[..i], here) + before;
      after := after + others + if sh.obj.ftype.Unknown? then [] else [Visit(sh.obj, here)];
    }
  }

  /** Names joined by slashes. */
  function Joined(names: seq<string>): string {
    if names == [] then "" else if |names| == 1 then names[0] else names[0] + "/" + Joined(names[1..])
  }

  lemma {:induction false} EnterAllJoins(path: string, names: seq<string>)
    requires path != ""
    ensures EnterAll(path, names) == if names == [] then path else path + "/" + Joined(names)
    decreases names
  {
    if names != [] {
      EnterAllJoins(Enter(path, names[0]), names[1..]);
      assert Enter(path, names[0]) == path + "/" + names[0];
    }
  }

  /** A target of known type comes last among the visits of its tree, under the names that lead to it. */
  lemma VisitedLastAtItsPath(sh: Shape, names: seq<string>)
    requires !sh.obj.ftype.Unknown? && (names != [] ==> names[0] != "")
    ensures var visits := Visits(sh, EnterAll("", names));
            visits != [] && visits[|visits| - 1] == Visit(sh.obj, Joined(names + [sh.obj.name]))
  {
    var all := names + [sh.obj.name];
    if names == [] {
      assert all == [sh.obj.name];
    } else {
      EnterAllJoins(names[0], names[1..]);
      EnterAllJoins(names[0], all[1..]);
      assert EnterAll("", names) == EnterAll(names[0], names[1..]);
      EnterAllSnoc(names[0], names[1..], sh.obj.name);
      assert all[1..] == names[1..] + [sh.obj.name];
      EnterAllJoins(names[0], names[1..] + [sh.obj.name]);
    }
  }

  lemma {:induction false} EnterAllSnoc(path: string, names: seq<string>, name: string)
    ensures EnterAll(path, names + [name]) == Enter(EnterAll(path, names), name)
    decreases names
  {
    if names == [] {
      assert names + [name] == [name] && [name][1..] == [];
    } else {
      EnterAllSnoc(Enter(path, names[0]), names[1..], name);
      assert (names + [name])[1..] == names[1..] + [name];
    }
  }

  /** Children are visited in the order they have in their directory. */
  lemma ChildrenInOrder(sh: Shape, path: string, i: nat, j: nat) returns (a: seq<Visit>, b: seq<Visit>, c: seq<Visit>)
    requires i < j < |sh.kids|
    ensures var here := EnterAll(path, [sh.obj.name]);
            Visits(sh, path) == a + Visits(sh.kids[i], here) + b + Visits(sh.kids[j], here) + c
  {
    var here := Enter(path, sh.obj.name);
    assert [sh.obj.name][1..] == [];
    c := VisitsAllSplit(sh.kids, here, j);
    b := VisitsAllSplit(sh.kids[..j], here, i);
    a := VisitsAll(sh.kids[..i], here);
    assert sh.kids[..j][..i] == sh.kids[..i];
    c := c + if sh.obj.ftype.Unknown? then [] else [Visit(sh.obj, here)];
  }

  // ----- creation paths -----

  /** The tree was created from the path `p` downwards. */
  ghost predicate MadeAlong(sh: Shape, p: string)
    decreases sh
  {
    sh.obj.madeAt == p && sh.obj.name == Basename(p) && MadeUnder(sh.kids, p)
  }

  /** Entries of the directory created at `p`: real names, neither "." nor "..". */
  ghost predicate MadeUnder(kids: seq<Shape>, p: string)
    decreases kids
  {
    kids != [] ==>
      var last := kids[|kids| - 1];
      && MadeUnder(kids[..|kids| - 1], p)
      && last.obj.name != "" && last.obj.name != "." && '/' !in last.obj.name
      && MadeAlong(last, Attach(p, last.obj.name))
  }

  /** A path that names something and has no slash at its end. */
  predicate PlainPath(p: string) {
    p != "" && p[|p| - 1] != '/'
  }

  lemma AttachStaysPlain(p: string, name: string)
    requires PlainPath(p) && name != "" && name != "." && '/' !in name
    ensures Attach(p, name) == if p == "." then name else p + "/" + name
    ensures PlainPath(Attach(p, name)) && Attach(p, name) != "."
  {
  }

  /** `seen` is where the walk is, `made` where creation was: they differ by the directory part of the root path. */
  ghost predicate Shifted(visits: seq<Visit>, dir: string) {
    forall i :: 0 <= i < |visits| ==> visits[i].target.madeAt == dir + visits[i].path
  }

  lemma ShiftedSum(a: seq<Visit>, b: seq<Visit>, dir: string)
    requires Shifted(a, dir) && Shifted(b, dir)
    ensures Shifted(a + b, dir)
  {
  }

  lemma {:induction false} WalkFollowsCreation(sh: Shape, path: string, dir: string)
    requires PlainPath(sh.obj.madeAt) && MadeAlong(sh, sh.obj.madeAt) && sh.obj.madeAt != "."
    requires sh.obj.madeAt == dir + Enter(path, sh.obj.name)
    ensures Shifted(Visits(sh, path), dir)
    decreases sh
  {
    var here := Enter(path, sh.obj.name);
    KidsFollowCreation(sh.kids, here, dir, sh.obj.madeAt);
    ShiftedSum(VisitsAll(sh.kids, here), if sh.obj.ftype.Unknown? then [] else [Visit(sh.obj, here)], dir);
  }

  lemma {:induction false} KidsFollowCreation(kids: seq<Shape>, here: string, dir: string, p: string)
    requires PlainPath(p) && MadeUnder(kids, p) && p != "." && p == dir + here && here != ""
    ensures Shifted(VisitsAll(kids, here), dir)
    decreases kids
  {
    hide Visits, Attach, AttachPrefix, Basename;
    if kids != [] {
      var front, last := kids[..|kids| - 1], kids[|kids| - 1];
      var name := last.obj.name;
      AttachStaysPlain(p, name);
      assert p + "/" + name == dir + (here + "/" + name);
      KidsFollowCreation(front, here, dir, p);
      WalkFollowsCreation(last, here, dir);
      ShiftedSum(VisitsAll(front, here), Visits(last, here), dir);
    }
  }

  /** The walk writes `pre` in front of every creation path. */
  ghost predicate Prefixed(visits: seq<Visit>, pre: string) {
    forall i :: 0 <= i < |visits| ==> visits[i].path == pre + visits[i].target.madeAt
  }

  lemma PrefixedSum(a: seq<Visit>, b: seq<Visit>, pre: string)
    requires Prefixed(a, pre) && Prefixed(b, pre)
    ensures Prefixed(a + b, pre)
  {
  }

  lemma {:induction false} WalkExtendsCreation(sh: Shape, path: string, pre: string)
    requires PlainPath(sh.obj.madeAt) && MadeAlong(sh, sh.obj.madeAt) && sh.obj.madeAt != "."
    requires Enter(path, sh.obj.name) == pre + sh.obj.madeAt
    ensures Prefixed(Visits(sh, path), pre)
    decreases sh
  {
    var here := Enter(path, sh.obj.name);
    KidsExtendCreation(sh.kids, here, pre, sh.obj.madeAt);
    PrefixedSum(VisitsAll(sh.kids, here), if sh.obj.ftype.Unknown? then [] else [Visit(sh.obj, here)], pre);
  }

  lemma {:induction false} KidsExtendCreation(kids: seq<Shape>, here: string, pre: string, p: string)
    requires PlainPath(p) && MadeUnder(kids, p)
    requires here == if p == "." then "." else pre + p
    requires p == "." ==> pre == "./"
    ensures Prefixed(VisitsAll(kids, here), pre)
    decreases kids
  {
    hide Visits, Attach, AttachPrefix, Basename;
    if kids != [] {
      var front, last := kids[..|kids| - 1], kids[|kids| - 1];
      var name := last.obj.name;
      AttachStaysPlain(p, name);
      assert here + "/" + name == pre + Attach(p, name);
      KidsExtendCreation(front, here, pre, p);
      WalkExtendsCreation(last, here, pre);
      PrefixedSum(VisitsAll(front, here), Visits(last, here), pre);
    }
  }

  /** For a root other than ".", observing uses the creation path without the directory part of the root. */
  lemma ObservedPathLosesDirectory(sh: Shape, root: string)
    requires PlainPath(root) && MadeAlong(sh, root) && root != "."
    ensures Shifted(Visits(sh, ""), DirPart(root))
  {
    WalkFollowsCreation(sh, "", DirPart(root));
  }

  lemma BasenameOfDot()
    ensures Basename(".") == "."
  {
  }

  /** For the root ".", every descendant is observed under "./" and its creation path. */
  lemma ObservedPathUnderDot(sh: Shape)
    requires MadeAlong(sh, ".")
    ensures Prefixed(VisitsAll(sh.kids, "."), "./")
    ensures Enter("", sh.obj.name) == "."
  {
    hide VisitsAll, MadeUnder, Prefixed, Basename;
    BasenameOfDot();
    KidsExtendCreation(sh.kids, ".", "./", ".");
  }

  ghost predicate SamePaths(visits: seq<Visit>) {
    forall i :: 0 <= i < |visits| ==> visits[i].path == visits[i].target.madeAt
  }

  lemma SameWhenNotShifted(visits: seq<Visit>, dir: string)
    requires Shifted(visits, dir) && visits != []
    ensures SamePaths(visits) <==> dir == ""
  {
    var v := visits[0];
    assert v.target.madeAt == dir + v.path;
    if dir == "" {
      forall i | 0 <= i < |visits|
        ensures visits[i].path == visits[i].target.madeAt
      {
        assert dir + visits[i].path == visits[i].path;
      }
    }
  }

  lemma PrefixedDiffer(visits: seq<Visit>)
    requires Prefixed(visits, "./") && visits != []
    ensures !SamePaths(visits)
  {
    assert |visits[0].path| == 2 + |visits[0].target.madeAt|;
  }

  lemma SamePathsSnoc(visits: seq<Visit>, v: Visit)
    ensures SamePaths(visits + [v]) <==> SamePaths(visits) && v.path == v.target.madeAt
  {
    if SamePaths(visits + [v]) {
      assert (visits + [v])[|visits|] == v;
      forall i | 0 <= i < |visits|
        ensures visits[i].path == visits[i].target.madeAt
      {
        assert (visits + [v])[i] == visits[i];
      }
    }
  }

  lemma VisitsOfRoot(sh: Shape, root: string)
    requires MadeAlong(sh, root)
    ensures Visits(sh, "") == VisitsAll(sh.kids, sh.obj.name)
                              + if sh.obj.ftype.Unknown? then [] else [Visit(sh.obj, sh.obj.name)]
    ensures sh.obj.madeAt == root && (root == "." ==> sh.obj.name == ".")
  {
    BasenameOfDot();
    hide Basename, MadeUnder, VisitsAll;
  }

  lemma SamePathsUnderDot(sh: Shape)
    requires MadeAlong(sh, ".")
    ensures SamePaths(Visits(sh, "")) <==> VisitsAll(sh.kids, ".") == []
  {
    hide VisitsAll, Visits, MadeAlong, SamePaths, Prefixed;
    NothingDiffers();
    VisitsOfRoot(sh, ".");
    ObservedPathUnderDot(sh);
    var below := VisitsAll(sh.kids, ".");
    SamePathsSnoc(below, Visit(sh.obj, "."));
    assert below + [] == below;
    if below != [] {
      PrefixedDiffer(below);
    }
  }

  /** Exactly when every target is observed under the path it was created with. */
  lemma PathsAgreeExactlyWhen(sh: Shape, root: string)
    requires PlainPath(root) && MadeAlong(sh, root)
    ensures SamePaths(Visits(sh, "")) <==>
            || Visits(sh, "") == []
            || ('/' !in root && (root == "." ==> VisitsAll(sh.kids, ".") == []))
  {
    hide VisitsAll, Visits, MadeAlong, SamePaths, Shifted, Basename, DirPart;
    NothingDiffers();
    if root == "." {
      SamePathsUnderDot(sh);
      VisitsOfRoot(sh, ".");
    } else if Visits(sh, "") != [] {
      ObservedPathLosesDirectory(sh, root);
      SameWhenNotShifted(Visits(sh, ""), DirPart(root));
      DirPartShape(root);
    }
  }

  lemma NothingDiffers()
    ensures SamePaths([])
  {
  }
}
