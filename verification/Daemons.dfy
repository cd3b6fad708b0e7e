/** The daemon: it builds target trees once and then observes them round after round. */
module Daemons {
  import opened CMachine
  import opened CStrings
  import opened Events
  import opened Paths
  import opened Targets

  /** The outside world: the n-th lstat, the clock at that call, and whether a log and its event then find memory. */
  datatype Env = Env(lstat: (nat, string) -> StatResult, clock: nat -> nat, room: nat -> bool, memory: nat -> bool)

  function ObsAt(env: Env, n: nat, path: string): Obs {
    Obs(env.lstat(n, path), env.clock(n), env.memory(n))
  }

  ghost predicate AlwaysMemory(env: Env) {
    forall n: nat :: env.room(n) && env.memory(n)
  }

  const MAX_ROOTS: nat := 64

  /** What reading a directory yields, level by level. */
  datatype Entry = Entry(name: string, kids: seq<Entry>)

  /** Names a directory can hold. */
  predicate GoodEntries(listing: seq<Entry>)
    decreases listing
  {
    forall i :: 0 <= i < |listing| ==>
      && listing[i].name != "" && '/' !in listing[i].name && '\0' !in listing[i].name
      && GoodEntries(listing[i].kids)
  }

  // ----- what creation makes of a listing -----

  /** A tree of targets by value: names, types and acknowledgements. */
  datatype Tree = Tree(name: string, ftype: FileType, ack: Event, kids: seq<Tree>)

  ghost function Picture(sh: Shape): Tree
    decreases sh
  {
    Tree(sh.obj.name, sh.obj.ftype, sh.obj.ack, PictureAll(sh.kids))
  }

  ghost function PictureAll(kids: seq<Shape>): seq<Tree>
    decreases kids
  {
    if kids == [] then [] else PictureAll(kids[..|kids| - 1]) + [Picture(kids[|kids| - 1])]
  }

  /** No tree or one, and the number of lstat calls made by then. */
  datatype Made = Made(trees: seq<Tree>, calls: nat)

  function Build(env: Env, n: nat, p: string, e: Entry): Made
    decreases e, 1
  {
    var first, second := env.lstat(n, p), env.lstat(n + 1, p);
    if !second.Found? || !env.room(n + 1) || !env.memory(n + 1) then Made([], n + 2)
    else
      var ftype := FileTypeOf(first.Seen().mode);
      var below := if ftype.Directory? then BuildAll(env, n + 2, p, e.kids) else Made([], n + 2);
      Made([Tree(Basename(p), ftype, Event(EVENT_ACK, env.clock(n + 1), second.st), below.trees)], below.calls)
  }

  predicate IsDots(name: string) {
    name == "." || name == ".."
  }

  function BuildAll(env: Env, n: nat, p: string, listing: seq<Entry>): Made
    decreases listing, 0
  {
    if listing == [] then Made([], n)
    else
      var front, last := BuildAll(env, n, p, listing[..|listing| - 1]), listing[|listing| - 1];
      if IsDots(last.name) then front
      else
        var r := Build(env, front.calls, Attach(p, last.name), last);
        Made(front.trees + r.trees, r.calls)
  }

  function Names(listing: seq<Entry>): seq<string> {
    if listing == [] then []
    else
      var name := listing[|listing| - 1].name;
      Names(listing[..|listing| - 1]) + if name == "." || name == ".." then [] else [name]
  }

  function TreeNames(trees: seq<Tree>): seq<string> {
    seq(|trees|, i requires 0 <= i < |trees| => trees[i].name)
  }

  ghost predicate AllFound(env: Env) {
    forall n: nat, p: string :: env.lstat(n, p).Found?
  }

  lemma OneTree(env: Env, n: nat, p: string, e: Entry)
    requires AllFound(env) && AlwaysMemory(env)
    ensures var trees := Build(env, n, p, e).trees; |trees| == 1 && trees[0].name == Basename(p)
  {
  }

  /** A target whose first lstat failed has no type, no children, and is never visited. */
  lemma FailedStatHidesTarget(env: Env, n: nat, p: string, e: Entry)
    requires !env.lstat(n, p).Found?
    ensures var trees := Build(env, n, p, e).trees;
            trees != [] ==> trees[0].ftype.Unknown? && trees[0].kids == []
  {
    assert FileTypeOf(0) == Unknown;
  }

  /** Such a target is skipped by every walk. */
  lemma UnknownIsNotVisited(sh: Shape, path: string)
    requires Picture(sh).ftype.Unknown? && Picture(sh).kids == []
    ensures Visits(sh, path) == []
  {
    assert sh.kids != [] ==> PictureAll(sh.kids) != [];
  }

  /** When nothing fails, nothing is refused. */
  lemma NothingRefused(env: Env, p: string)
    requires AllFound(env) && AlwaysMemory(env)
    ensures !Refused(env, p)
  {
  }

  lemma ChildName(p: string, name: string)
    requires '/' !in name
    ensures Basename(Attach(p, name)) == name
  {
    hide Basename;
    BasenameOfTail(AttachPrefix(p), name);
  }

  lemma TreeNamesSnoc(trees: seq<Tree>, t: Tree)
    ensures TreeNames(trees + [t]) == TreeNames(trees) + [t.name]
  {
  }

  /** When nothing fails, a directory gets one child for every entry but "." and "..", by name and in order. */
  lemma {:induction false} ChildrenMirrorListing(env: Env, n: nat, p: string, listing: seq<Entry>)
    requires AllFound(env) && AlwaysMemory(env) && GoodEntries(listing)
    ensures TreeNames(BuildAll(env, n, p, listing).trees) == Names(listing)
    decreases listing
  {
    hide AllFound, AlwaysMemory, Build, Attach, Basename, TreeNames;
    if listing == [] {
      assert TreeNames([]) == [] by { NoTreeNames(); }
    } else {
      var front, last := listing[..|listing| - 1], listing[|listing| - 1];
      ChildrenMirrorListing(env, n, p, front);
      if !IsDots(last.name) {
        var before, path := BuildAll(env, n, p, front), Attach(p, last.name);
        OneTree(env, before.calls, path, last);
        ChildName(p, last.name);
        var tree := Build(env, before.calls, path, last).trees[0];
        assert Build(env, before.calls, path, last).trees == [tree];
        TreeNamesSnoc(before.trees, tree);
      }
    }
  }

  lemma NoTreeNames()
    ensures TreeNames([]) == []
  {
  }

  // ----- the whole tree -----

  /** An lstat of the path answered with a mode of this type, or failed, which leaves a mode of zeroes. */
  ghost predicate TypeSeen(env: Env, p: string, ftype: FileType) {
    exists n: nat :: ftype == FileTypeOf(if env.lstat(n, p).Found? then env.lstat(n, p).st.mode else 0)
  }

  /** An lstat of the path answered what the acknowledging event says. */
  ghost predicate AckSeen(env: Env, p: string, ack: Event) {
    exists n: nat :: env.lstat(n, p).Found? && ack == Event(EVENT_ACK, env.clock(n), env.lstat(n, p).st)
  }

  /** An lstat of the path failed, or found no memory for a log or its event. */
  ghost predicate Refused(env: Env, p: string) {
    exists n: nat :: !env.lstat(n, p).Found? || !env.room(n) || !env.memory(n)
  }

  /** The path of a directory entry, for a directory path without a slash at its end. */
  function Below(p: string, name: string): string {
    if p == "." then name else p + "/" + name
  }

  /** The tree is what lies at the path: its type, its acknowledgement, and for a directory all its entries. */
  ghost predicate Mirrors(env: Env, p: string, t: Tree, e: Entry)
    decreases e, 1
  {
    && TypeSeen(env, p, t.ftype) && AckSeen(env, p, t.ack)
    && if t.ftype.Directory? then MirrorsAll(env, p, t.kids, e.kids) else t.kids == []
  }

  /** One tree for every entry other than "." and ".." that is not refused, by name, in order, and at its path. */
  ghost predicate MirrorsAll(env: Env, p: string, trees: seq<Tree>, listing: seq<Entry>)
    decreases listing, 0
  {
    if listing == [] then trees == []
    else
      var front, last := listing[..|listing| - 1], listing[|listing| - 1];
      if last.name == "." || last.name == ".." then MirrorsAll(env, p, trees, front)
      else
        || (Refused(env, Below(p, last.name)) && MirrorsAll(env, p, trees, front))
        || (trees != [] && MirrorsAll(env, p, trees[..|trees| - 1], front)
            && trees[|trees| - 1].name == last.name && Mirrors(env, Below(p, last.name), trees[|trees| - 1], last))
  }

  /** The whole tree mirrors what is there, down to the last entry below directories, whatever fails. */
  lemma {:induction false} WholeTreeMirrors(env: Env, n: nat, p: string, e: Entry)
    requires GoodEntries(e.kids) && PlainPath(p)
    ensures var trees := Build(env, n, p, e).trees;
            if trees == [] then Refused(env, p)
            else |trees| == 1 && trees[0].name == Basename(p) && Mirrors(env, p, trees[0], e)
    decreases e, 1
  {
    hide BuildAll, MirrorsAll, Basename, GoodEntries;
    var first, second := env.lstat(n, p), env.lstat(n + 1, p);
    assert TypeSeen(env, p, FileTypeOf(first.Seen().mode));
    hide FileTypeOf, TypeSeen;
    WholeTreesMirror(env, n + 2, p, e.kids);
    if second.Found? {
      assert AckSeen(env, p, Event(EVENT_ACK, env.clock(n + 1), second.st));
    }
  }

  lemma {:induction false} WholeTreesMirror(env: Env, n: nat, p: string, listing: seq<Entry>)
    requires GoodEntries(listing) && PlainPath(p)
    ensures MirrorsAll(env, p, BuildAll(env, n, p, listing).trees, listing)
    decreases listing, 0
  {
    hide Build, Mirrors, Attach, Basename, Refused;
    if listing != [] {
      var front, last := listing[..|listing| - 1], listing[|listing| - 1];
      WholeTreesMirror(env, n, p, front);
      if !IsDots(last.name) {
        var before := BuildAll(env, n, p, front);
        AttachStaysPlain(p, last.name);
        WholeTreeMirrors(env, before.calls, Attach(p, last.name), last);
        ChildName(p, last.name);
        var r := Build(env, before.calls, Attach(p, last.name), last);
        assert before.trees + r.trees == if r.trees == [] then before.trees else before.trees + [r.trees[0]];
      }
    }
  }

  lemma MadeMirrors(env: Env, n: nat, p: string, e: Entry, made: seq<Shape>, calls: nat)
    requires GoodEntries(e.kids) && PlainPath(p)
    requires |made| <= 1 && Made(PictureAll(made), calls) == Build(env, n, p, e)
    ensures if made == [] then Refused(env, p) else Mirrors(env, p, Picture(made[0]), e)
  {
    hide Build, Mirrors, Picture, Refused, Basename;
    WholeTreeMirrors(env, n, p, e);
    if made != [] {
      assert made[..|made| - 1] == [];
    }
  }

  /** The children of a directory, said out for the mode: named, in order, as the entries other than "." and "..". */
  lemma DirectoryHasItsEntries(env: Env, n: nat, p: string, e: Entry)
    requires AllFound(env) && AlwaysMemory(env) && GoodEntries(e.kids)
    ensures var trees := Build(env, n, p, e).trees;
            && |trees| == 1
            && (env.lstat(n, p).st.mode / 0x1000 % 0x10 == 4 ==> TreeNames(trees[0].kids) == Names(e.kids))
            && (env.lstat(n, p).st.mode / 0x1000 % 0x10 != 4 ==> trees[0].kids == [])
  {
    hide BuildAll, TreeNames, Names, Basename, GoodEntries;
    assert env.lstat(n, p).Found? && env.lstat(n + 1, p).Found? && env.memory(n + 1);
    ChildrenMirrorListing(env, n + 2, p, e.kids);
  }

  // ----- counting events -----

  function Sum(s: seq<nat>): nat {
    if s == [] then 0 else Sum(s[..|s| - 1]) + s[|s| - 1]
  }

  lemma {:induction false} SumUpdate(s: seq<nat>, j: nat, v: nat)
    requires j < |s|
    ensures Sum(s[j := v]) == Sum(s) - s[j] + v
  {
    var n := |s| - 1;
    if j < n {
      SumUpdate(s[..n], j, v);
      assert s[j := v][..n] == s[..n][j := v];
    } else {
      assert s[j := v][..n] == s[..n];
    }
  }

  lemma SumSnoc(s: seq<nat>, v: nat)
    ensures Sum(s + [v]) == Sum(s) + v
  {
  }

  ghost function LogLengths(all: seq<Target>): seq<nat>
    reads all`events
  {
    if all == [] then [] else LogLengths(all[..|all| - 1]) + [|all[|all| - 1].events|]
  }

  lemma {:induction false} LogLengthsAt(all: seq<Target>)
    ensures |LogLengths(all)| == |all|
    ensures forall i :: 0 <= i < |all| ==> LogLengths(all)[i] == |all[i].events|
  {
    if all != [] {
      LogLengthsAt(all[..|all| - 1]);
    }
  }

  lemma LogLengthsSnoc(all: seq<Target>, t: Target)
    ensures LogLengths(all + [t]) == LogLengths(all) + [|t.events|]
  {
  }

  ghost predicate Distinct(all: seq<Target>) {
    forall i, j :: 0 <= i < j < |all| ==> all[i] != all[j]
  }

  ghost function ToSet(all: seq<Target>): set<Target> {
    set o | o in all
  }

  /** What a stretch of visits adds to the histories, the first of them making the n-th call of lstat. */
  ghost function Recorded(env: Env, h: map<Target, seq<Obs>>, visits: seq<Visit>, n: nat): map<Target, seq<Obs>> {
    if visits == [] then h
    else
      var k := |visits| - 1;
      var before, v := Recorded(env, h, visits[..k], n), visits[k];
      before[v.target := (if v.target in before then before[v.target] else []) + [ObsAt(env, n + k, v.path)]]
  }

  lemma RecordedNone(env: Env, h: map<Target, seq<Obs>>, n: nat)
    ensures Recorded(env, h, [], n) == h
  {
  }

  lemma RecordedOnce(env: Env, h: map<Target, seq<Obs>>, v: Visit, n: nat)
    requires v.target in h
    ensures Recorded(env, h, [v], n) == h[v.target := h[v.target] + [ObsAt(env, n, v.path)]]
  {
  }

  lemma {:induction false} RecordedSum(env: Env, h: map<Target, seq<Obs>>, a: seq<Visit>, b: seq<Visit>, n: nat)
    ensures Recorded(env, h, a + b, n) == Recorded(env, Recorded(env, h, a, n), b, n + |a|)
    decreases b
  {
    hide ObsAt;
    if b == [] {
      assert a + b == a;
    } else {
      var k := |b| - 1;
      RecordedSum(env, h, a, b[..k], n);
      assert (a + b)[..|a + b| - 1] == a + b[..k];
    }
  }

  lemma LinkedFacts(sh: Shape, path: string)
    requires Linked(sh) && Fits(sh, path)
    ensures '\0' !in sh.obj.name && |Enter(path, sh.obj.name)| < MAX_PATH_SIZE
    ensures LinkedAll(sh.kids) && FitsAll(sh.kids, Enter(path, sh.obj.name))
    ensures |sh.obj.children| == |sh.kids| && forall i :: 0 <= i < |sh.kids| ==> sh.obj.children[i] == sh.kids[i].obj
    ensures ObjSetAll(sh.kids) <= ObjSet(sh) && sh.obj in ObjSet(sh)
    ensures var here := Enter(path, sh.obj.name);
            Visits(sh, path) == match sh.obj.ftype
                                case Unknown => []
                                case Directory => VisitsAll(sh.kids, here) + [Visit(sh.obj, here)]
                                case _ => [Visit(sh.obj, here)]
  {
  }

  lemma VisitsNobody(path: string)
    ensures VisitsAll([], path) == []
  {
  }

  lemma VisitsAllSnoc(kids: seq<Shape>, path: string, i: nat)
    requires i < |kids|
    ensures VisitsAll(kids[..i + 1], path) == VisitsAll(kids[..i], path) + Visits(kids[i], path)
  {
    assert kids[..i + 1][..i] == kids[..i];
  }

  class Daemon {
    const env: Env
    const cur: PathBuffer
    var nStat: nat
    var nEvents: nat
    var nTargets: nat
    var nRounds: nat
    var roots: seq<Target>
    ghost var shapes: seq<Shape>
    ghost var all: seq<Target> // every finished target
    ghost var lost: nat        // events counted but not stored
    ghost var pending: nat     // events of targets under construction
    ghost var trace: seq<Visit>

    /** Every log is the account of its history, and the counters account for every log. */
    ghost predicate Valid()
      reads this`nTargets, this`nEvents, this`lost, this`pending, this`all, cur, cur.buf, all`events, all`history
    {
      && cur.Valid()
      && Distinct(all)
      && (forall o :: o in all ==> o.LogMatches())
      && nTargets == |all|
      && Sum(LogLengths(all)) + lost + pending == nEvents
      && (AlwaysMemory(env) ==> lost == 0 && forall o :: o in all ==> AllStored(o.history))
    }

    constructor (e: Env)
      ensures Valid() && Ready() && env == e && shapes == [] && trace == [] && nTargets == nEvents == nRounds == 0
    {
      env := e;
      cur := new PathBuffer();
      nStat, nEvents, nTargets, nRounds := 0, 0, 0, 0;
      roots, shapes, all, trace := [], [], [], [];
      lost, pending := 0, 0;
    }

    /** Every observation of every target so far. */
    ghost function Histories(): map<Target, seq<Obs>>
      reads this`all, all`history
    {
      map o | o in all :: o.history
    }

    // ----- tracking one target -----

    /** An observation that leaves the log as it is. */
    ghost method Skip(t: Target, o: Obs)
      requires Valid() && t in all && Track(t.events, o) == t.events && (AlwaysMemory(env) ==> o.stored)
      modifies t`history
      ensures Valid() && Histories() == old(Histories())[t := old(t.history) + [o]]
      ensures t.history == old(t.history) + [o]
    {
      hide Sum, Log, Track, Distinct;
      assert t.LogMatches();
      LogSnoc(t.ack, t.history, o);
      t.history := t.history + [o];
      assert LogLengths(all) == old(LogLengths(all));
    }

    /** array_push of an event that found memory. */
    method Store(t: Target, e: Event, ghost o: Obs)
      requires Valid() && t in all && Track(t.events, o) == t.events + [e] && (AlwaysMemory(env) ==> o.stored)
      modifies this`nEvents, t`events, t`history
      ensures Valid() && Histories() == old(Histories())[t := old(t.history) + [o]]
      ensures t.history == old(t.history) + [o]
      ensures t.events == old(t.events) + [e]
    {
      hide Sum, Log, Track;
      hide LogLengths;
      ghost var j, lengths := Position(t), LogLengths(all);
      LogLengthsAt(all);
      assert t.LogMatches();
      LogSnoc(t.ack, t.history, o);
      t.history := t.history + [o];
      nEvents := nEvents + 1;
      t.events := t.events + [e];
      LogLengthsAt(all);
      SumUpdate(lengths, j, |t.events|);
      assert LogLengths(all) == lengths[j := |t.events|];
    }

    /** Counts and stores an event, if there is one, and records the observation behind it. */
    method Record(t: Target, ghost o: Obs, mask: int, at: nat, st: Stat, stored: bool)
      requires Valid() && t in all && t.events != []
      requires mask == Detect(t.events[|t.events| - 1].st, o) && at == o.at && st == o.Seen() && stored == o.stored
      requires AlwaysMemory(env) ==> stored
      modifies this`nEvents, this`lost, t`events, t`history
      ensures Valid() && Histories() == old(Histories())[t := old(t.history) + [o]]
      ensures t.history == old(t.history) + [o]
      ensures t.events == Track(old(t.events), o)
    {
      hide Detect, Sum, LogLengths, Log, Distinct;
      if mask == 0 {
        Skip(t, o);
      } else if stored {
        Store(t, Event(mask, at, st), o);
      } else {
        nEvents := nEvents + 1;
        lost := lost + 1;
        Skip(t, o);
      }
    }

    ghost function Position(t: Target): (j: nat)
      requires t in all
      reads this`all
      ensures j < |all| && all[j] == t
    {
      var j: nat :| j < |all| && all[j] == t;
      j
    }

    /** target_event_detect: 0 if nothing happened, 1 if an event was logged, -1 if it could not be. */
    method DetectEvent(t: Target, path: string) returns (code: int)
      requires Valid() && t in all && t.events != []
      modifies this`nStat, this`nEvents, this`lost, t`events, t`history
      ensures Valid() && nStat == old(nStat) + 1
      ensures Histories() == old(Histories())[t := old(t.history) + [ObsAt(env, old(nStat), path)]]
      ensures var n := old(nStat);
              t.history == old(t.history) + [Obs(env.lstat(n, path), env.clock(n), env.memory(n))]
      ensures code == if |t.events| > |old(t.events)| then 1
                      else if Detect(old(t.events[|t.events| - 1].st), ObsAt(env, old(nStat), path)) != 0 then -1 else 0
    {
      hide Sum, LogLengths, Log, Distinct, CmpStat, Valid;
      var at, r, stored := env.clock(nStat), env.lstat(nStat, path), env.memory(nStat);
      ghost var o := ObsAt(env, nStat, path);
      nStat := nStat + 1;
      var mask, st;
      match r {
        case Found(found) => mask := ScanStat(found, t.events[|t.events| - 1].st); st := found;
        case NoAccess => mask, st := EVENT_FAIL, ZERO_STAT;
        case NoEntry => mask, st := EVENT_DELETE, ZERO_STAT;
        case OtherError => mask, st := EVENT_DELETE, ZERO_STAT;
      }
      Record(t, o, mask, at, st, stored);
      return if mask == 0 then 0 else if stored then 1 else -1;
    }

    /** fs_target_event_track */
    method EventTrack(t: Target) returns (ok: bool)
      requires Valid() && t in all
      modifies this`nStat, this`nEvents, this`lost, this`trace, t`events, t`history
      ensures Valid() && ok && nStat == old(nStat) + 1
      ensures Histories() == Recorded(env, old(Histories()), [Visit(t, cur.text)], old(nStat))
      ensures trace == old(trace) + [Visit(t, cur.text)]
    {
      hide Sum, LogLengths, Log, Distinct, Valid, Recorded;
      HasEvents(t);
      trace := trace + [Visit(t, cur.text)];
      if |t.events| == 0 {
        return false;
      }
      var path := cur.Path();
      RecordedOnce(env, Histories(), Visit(t, cur.text), nStat);
      var _ := DetectEvent(t, path);
      ok := true;
    }

    lemma HasEvents(t: Target)
      requires Valid() && t in all
      ensures t.events != [] && cur.Valid()
    {
    }

    // ----- the walk -----

    /** fs_target_observe: the path is pushed, the children are visited, then the target, and the path is popped. */
    method Observe(t: Target, ghost sh: Shape)
      requires Valid() && t == sh.obj && Linked(sh) && Fits(sh, cur.text) && ObjSet(sh) <= ToSet(all)
      modifies this`nStat, this`nEvents, this`lost, this`trace, cur, cur.buf
      modifies ObjSet(sh)`events, ObjSet(sh)`history
      ensures Valid() && cur.text == old(cur.text)
      ensures trace == old(trace) + Visits(sh, cur.text) && nStat == old(nStat) + |Visits(sh, cur.text)|
      ensures Histories() == Recorded(env, old(Histories()), Visits(sh, cur.text), old(nStat))
      decreases sh, 1
    {
      hide Valid, Recorded, Histories, Linked, LinkedAll, Fits, FitsAll, Objs, ObjsAll, Enter, Leave, Visits, VisitsAll,
           ObsAt;
      ghost var path, histories, n := cur.text, Histories(), nStat;
      LinkedFacts(sh, path);
      LeaveUndoesEnter(path, t.name);
      EnterPath(t.name);
      ghost var here := cur.text;
      if t.ftype.Directory? {
        ObserveEach(t.children, sh.kids);
        RecordedSum(env, histories, VisitsAll(sh.kids, here), [Visit(t, here)], n);
      } else {
        RecordedNone(env, histories, n);
      }
      if !t.ftype.Unknown? {
        var _ := EventTrack(t);
      }
      LeavePath(t.name);
    }

    method EnterPath(name: string)
      requires Valid() && '\0' !in name && |Enter(cur.text, name)| < MAX_PATH_SIZE
      modifies cur, cur.buf
      ensures Valid() && cur.text == Enter(old(cur.text), name)
    {
      hide Sum, LogLengths;
      cur.Set(name);
    }

    method LeavePath(name: string)
      requires Valid() && (|cur.text| == |name| || |cur.text| > |name|)
      modifies cur, cur.buf
      ensures Valid() && cur.text == Leave(old(cur.text), name)
    {
      hide Sum, LogLengths;
      cur.Unset(name);
    }

    /** The loop over children, and over the roots in every round. */
    method ObserveEach(ts: seq<Target>, ghost kids: seq<Shape>)
      requires Valid() && LinkedAll(kids) && FitsAll(kids, cur.text) && ObjSetAll(kids) <= ToSet(all)
      requires |ts| == |kids| && forall i :: 0 <= i < |ts| ==> ts[i] == kids[i].obj
      modifies this`nStat, this`nEvents, this`lost, this`trace, cur, cur.buf
      modifies ObjSetAll(kids)`events, ObjSetAll(kids)`history
      ensures Valid() && cur.text == old(cur.text)
      ensures trace == old(trace) + VisitsAll(kids, cur.text) && nStat == old(nStat) + |VisitsAll(kids, cur.text)|
      ensures Histories() == Recorded(env, old(Histories()), VisitsAll(kids, cur.text), old(nStat))
      decreases kids, 0
    {
      hide Valid, Recorded, Histories, Linked, LinkedAll, Fits, FitsAll, Objs, ObjsAll, Enter, Leave, Visits, VisitsAll,
           ObsAt;
      ghost var path := cur.text;
      var i := 0;
      VisitsNobody(path);
      assert kids[..0] == [];
      RecordedNone(env, Histories(), nStat);
      while i < |ts|
        invariant i <= |ts| && Valid() && cur.text == path
        invariant trace == old(trace) + VisitsAll(kids[..i], path) && nStat == old(nStat) + |VisitsAll(kids[..i], path)|
        invariant Histories() == Recorded(env, old(Histories()), VisitsAll(kids[..i], path), old(nStat))
      {
        KidsAreFine(kids, path, i);
        KidWithin(kids, i);
        RecordedSum(env, old(Histories()), VisitsAll(kids[..i], path), Visits(kids[i], path), old(nStat));
        Observe(ts[i], kids[i]);
        VisitsAllSnoc(kids, path, i);
        i := i + 1;
      }
      assert kids[..i] == kids;
    }

    // ----- building the trees -----

    /** fs_target_event_init: a second lstat, and the acknowledging event. */
    method AckEvent(p: string) returns (ok: bool, ack: Event)
      requires Valid()
      modifies this`nStat, this`nEvents, this`lost, this`pending
      ensures Valid() && all == old(all)
      ensures pending == old(pending) + (if ok then 1 else 0) && nStat == old(nStat) + 1
      ensures ok <==> env.lstat(old(nStat), p).Found? && env.room(old(nStat)) && env.memory(old(nStat))
      ensures nEvents == old(nEvents) + if env.lstat(old(nStat), p).Found? && env.room(old(nStat)) then 1 else 0
      ensures ok ==> ack == Event(EVENT_ACK, env.clock(old(nStat)), env.lstat(old(nStat), p).st)
    {
      hide Sum, LogLengths, Distinct;
      var at, r, room, stored := env.clock(nStat), env.lstat(nStat, p), env.room(nStat), env.memory(nStat);
      nStat := nStat + 1;
      ack := Event(EVENT_ACK, at, r.Seen());
      if !r.Found? || !room {
        return false, ack;
      }
      nEvents := nEvents + 1;
      if !stored {
        lost := lost + 1;
        return false, ack;
      }
      pending := pending + 1;
      return true, ack;
    }

    /** The finished target joins the account. */
    method Finish(t: Target)
      requires Valid() && pending > 0 && t !in all && |t.events| == 1 && t.LogMatches() && t.history == []
      modifies this`nTargets, this`pending, this`all
      ensures Valid() && all == old(all) + [t] && pending == old(pending) - 1
    {
      hide Sum, Log, LogLengths;
      SumSnoc(LogLengths(all), 1);
      LogLengthsSnoc(all, t);
      nTargets := nTargets + 1;
      pending := pending - 1;
      all := all + [t];
    }

    /** The first half of fs_target_create: name and type, and the log with its acknowledgement. */
    method NewTarget(p: string) returns (t: Target?)
      requires Valid()
      modifies this`nStat, this`nEvents, this`lost, this`pending
      ensures Valid() && all == old(all) && nStat == old(nStat) + 2
      ensures pending == old(pending) + if t == null then 0 else 1
      ensures var first, second, n := env.lstat(old(nStat), p), env.lstat(old(nStat) + 1, p), old(nStat) + 1;
              && (t != null <==> second.Found? && env.room(n) && env.memory(n))
              && (t != null ==> fresh(t) && t.LogMatches() && t.history == [] && t.children == [] && |t.events| == 1
                                && t.name == Basename(p) && t.madeAt == p && t.ftype == FileTypeOf(first.Seen().mode)
                                && t.ack == Event(EVENT_ACK, env.clock(n), second.st))
    {
      hide Valid, Basename, Log, FileTypeOf;
      var r := env.lstat(nStat, p);
      CountStat();
      var name, ftype := Basename(p), FileTypeOf(r.Seen().mode);
      var ok, ack := AckEvent(p);
      if !ok {
        return null;
      }
      t := new Target(name, ftype, p, ack);
    }

    method CountStat()
      requires Valid()
      modifies this`nStat
      ensures Valid() && nStat == old(nStat) + 1
    {
      nStat := nStat + 1;
    }

    /** fs_target_create: null if the second lstat or its event fails; a failure of the first only loses the type. */
    method Create(p: string, e: Entry) returns (t: Target?, ghost made: seq<Shape>)
      requires Valid() && PlainPath(p) && '\0' !in p && GoodEntries(e.kids)
      modifies this`nStat, this`nEvents, this`nTargets, this`lost, this`pending, this`all
      ensures Valid() && pending == old(pending)
      ensures if t == null then made == [] else |made| == 1 && made[0].obj == t && MadeAlong(made[0], p)
      ensures LinkedAll(made) && SeparateAll(made) && all == old(all) + ObjsAll(made)
      ensures Made(PictureAll(made), nStat) == Build(env, old(nStat), p, e)
      ensures forall o :: o in ObjSetAll(made) ==> allocated(o) && fresh(o) && o.history == []
      decreases e, 1
    {
      hide Valid, Basename, Linked, LinkedAll, Separate, SeparateAll, MadeAlong, MadeUnder, Objs, ObjsAll, Log,
           GoodEntries, Picture, PictureAll, BuildAll, FileTypeOf;
      t := NewTarget(p);
      NoShapes(p);
      if t == null {
        return null, [];
      }
      ghost var kids := [];
      if t.ftype.Directory? {
        kids := HandleChildren(t, p, e.kids);
      }
      NewTree(t, kids, p);
      Finish(t);
      made := [Shape(t, kids)];
    }

    /** handle_children: one child for every entry but "." and "..", if it could be made. */
    method HandleChildren(t: Target, p: string, listing: seq<Entry>) returns (ghost kids: seq<Shape>)
      requires Valid() && t !in all && t.children == [] && PlainPath(p) && '\0' !in p && GoodEntries(listing)
      modifies this`nStat, this`nEvents, this`nTargets, this`lost, this`pending, this`all, t`children
      ensures Valid() && pending == old(pending)
      ensures LinkedAll(kids) && SeparateAll(kids) && all == old(all) + ObjsAll(kids) && MadeUnder(kids, p)
      ensures |t.children| == |kids| && forall i :: 0 <= i < |kids| ==> t.children[i] == kids[i].obj
      ensures Made(PictureAll(kids), nStat) == BuildAll(env, old(nStat), p, listing)
      ensures forall o :: o in ObjSetAll(kids) ==> allocated(o) && fresh(o) && o.history == []
      decreases listing, 0
    {
      hide Valid, Basename, Linked, LinkedAll, Separate, SeparateAll, MadeAlong, MadeUnder, Objs, ObjsAll, Log, Attach,
           AttachPrefix, Picture, PictureAll, Build, BuildAll;
      NoShapes(p);
      BuildNothing(env, nStat, p);
      kids := [];
      var i := 0;
      assert listing[..i] == [];
      while i < |listing|
        invariant i <= |listing| && Valid() && pending == old(pending) && t !in all
        invariant LinkedAll(kids) && SeparateAll(kids) && all == old(all) + ObjsAll(kids) && MadeUnder(kids, p)
        invariant |t.children| == |kids| && forall i :: 0 <= i < |kids| ==> t.children[i] == kids[i].obj
        invariant Made(PictureAll(kids), nStat) == BuildAll(env, old(nStat), p, listing[..i])
        invariant forall o :: o in ObjSetAll(kids) ==> allocated(o) && fresh(o) && o.history == []
      {
        var entry := listing[i];
        BuildAllSnoc(env, old(nStat), p, listing, i);
        i := i + 1;
        if entry.name == "." || entry.name == ".." {
          continue;
        }
        assert forall o :: o in ObjSetAll(kids) ==> allocated(o);
        ghost var made := NextChild(t, p, entry);
        AddMade(kids, made, p, entry.name);
        kids := kids + made;
      }
      assert listing[..i] == listing;
    }

    /** The body of that loop: the child is created from the attached path and pushed, if there is one. */
    method NextChild(t: Target, p: string, entry: Entry) returns (ghost made: seq<Shape>)
      requires Valid() && t !in all && PlainPath(p) && '\0' !in p && !IsDots(entry.name)
      requires entry.name != "" && '/' !in entry.name && '\0' !in entry.name && GoodEntries(entry.kids)
      modifies this`nStat, this`nEvents, this`nTargets, this`lost, this`pending, this`all, t`children
      ensures Valid() && pending == old(pending) && t !in ObjSetAll(made)
      ensures made == [] || (|made| == 1 && MadeAlong(made[0], Attach(p, entry.name)))
      ensures t.children == old(t.children) + if made == [] then [] else [made[0].obj]
      ensures LinkedAll(made) && SeparateAll(made) && all == old(all) + ObjsAll(made)
      ensures Made(PictureAll(made), nStat) == Build(env, old(nStat), Attach(p, entry.name), entry)
      ensures forall o :: o in ObjSetAll(made) ==> allocated(o) && fresh(o) && o.history == []
      decreases entry, 2
    {
      hide Valid, Basename, Linked, LinkedAll, Separate, SeparateAll, MadeAlong, MadeUnder, Objs, ObjsAll, Log, Attach,
           AttachPrefix, Picture, PictureAll, Build, BuildAll;
      AttachStaysPlain(p, entry.name);
      var path := AttachString(p, entry.name);
      var child;
      child, made := Create(path, entry);
      if child != null {
        t.children := t.children + [child];
      }
    }

    /** The child path as attach builds it and the callee reads it. */
    method AttachString(p: string, name: string) returns (path: string)
      requires '\0' !in p && '\0' !in name
      ensures path == Attach(p, name) && '\0' !in path
    {
      var buffer := AttachChars(p, name);
      path := ReadString(buffer, Attach(p, name));
    }

    /** Between rounds: the trees are intact, nothing is under construction, and the path is empty. */
    ghost predicate Ready()
      reads this, cur, cur.buf, all`events, all`history, ObjSetAll(shapes)`children
    {
      && Valid() && cur.text == "" && pending == 0
      && all == ObjsAll(shapes) && LinkedAll(shapes) && SeparateAll(shapes)
      && |roots| == |shapes| && forall i :: 0 <= i < |roots| ==> roots[i] == shapes[i].obj
    }

    /** One turn of service_init: a root that cannot be created is skipped. */
    method AddRoot(p: string, e: Entry) returns (ghost made: seq<Shape>)
      requires Ready() && |roots| < MAX_ROOTS && PlainPath(p) && '\0' !in p && GoodEntries(e.kids)
      modifies this`nStat, this`nEvents, this`nTargets, this`lost, this`pending, this`all, this`roots, this`shapes
      ensures Ready() && shapes == old(shapes) + made && |made| <= 1
      ensures Made(PictureAll(made), nStat) == Build(env, old(nStat), p, e)
      ensures made != [] ==> MadeAlong(made[0], p)
      ensures if made == [] then Refused(env, p) else Mirrors(env, p, Picture(made[0]), e)
      ensures forall o :: o in ObjSetAll(made) ==> fresh(o) && o.history == []
    {
      hide Valid, Linked, LinkedAll, Separate, SeparateAll, MadeAlong, Objs, ObjsAll, Picture, PictureAll, Build,
           GoodEntries, Mirrors, Refused;
      assert forall o :: o in ObjSetAll(shapes) ==> allocated(o);
      var t;
      t, made := Create(p, e);
      AddRoots(shapes, made);
      assert forall o :: o in ObjSetAll(shapes + made) ==> allocated(o);
      if t != null {
        roots := roots + [t];
        shapes := shapes + made;
      }
      MadeMirrors(env, old(nStat), p, e, made, nStat);
    }

    // ----- rounds -----

    /** One round of the service loop: every root from the empty path, and back to it. */
    method Round()
      requires Ready() && FitsAll(shapes, "")
      modifies this`nStat, this`nEvents, this`lost, this`trace, this`nRounds, cur, cur.buf
      modifies ObjSetAll(shapes)`events, ObjSetAll(shapes)`history
      ensures Ready() && nRounds == old(nRounds) + 1
      ensures trace == old(trace) + VisitsAll(shapes, "") && nStat == old(nStat) + |VisitsAll(shapes, "")|
      ensures Histories() == Recorded(env, old(Histories()), VisitsAll(shapes, ""), old(nStat))
    {
      hide Valid, Linked, LinkedAll, Separate, SeparateAll, Objs, ObjsAll, FitsAll, Histories, Recorded, VisitsAll;
      nRounds := nRounds + 1;
      ObserveEach(roots, shapes);
    }

    /** A round adds one observation to every target of known type. */
    method CountedRound()
      requires Ready() && FitsAll(shapes, "")
      modifies this`nStat, this`nEvents, this`lost, this`trace, this`nRounds, cur, cur.buf
      modifies ObjSetAll(shapes)`events, ObjSetAll(shapes)`history
      ensures Ready() && nRounds == old(nRounds) + 1 && trace == old(trace) + VisitsAll(shapes, "")
      ensures nStat == old(nStat) + |VisitsAll(shapes, "")|
      ensures Histories() == Recorded(env, old(Histories()), VisitsAll(shapes, ""), old(nStat))
      ensures forall o :: o in all ==> |o.history| == |old(o.history)| + if o.ftype.Unknown? then 0 else 1
    {
      hide Valid, Linked, LinkedAll, Separate, SeparateAll, FitsAll, Recorded, VisitsAll, Objs, ObjsAll;
      ghost var before := Histories();
      VisitsAllEachKnownOnce(shapes, "");
      RecordedOnceEach(env, before, VisitsAll(shapes, ""), nStat);
      Round();
      ghost var after := Histories();
      forall o | o in all
        ensures |o.history| == |old(o.history)| + if o.ftype.Unknown? then 0 else 1
      {
        assert o in ObjSetAll(shapes) && after[o] == o.history;
      }
    }

    /** After any number of rounds every target of known type has been observed once more in each of them. */
    method Rounds(n: nat)
      requires Ready() && FitsAll(shapes, "")
      modifies this`nStat, this`nEvents, this`lost, this`trace, this`nRounds, cur, cur.buf
      modifies ObjSetAll(shapes)`events, ObjSetAll(shapes)`history
      ensures Ready() && nRounds == old(nRounds) + n
      ensures trace == old(trace) + Repeated(VisitsAll(shapes, ""), n)
      ensures Histories() == Recorded(env, old(Histories()), Repeated(VisitsAll(shapes, ""), n), old(nStat))
      ensures forall o :: o in all ==> |o.history| == |old(o.history)| + if o.ftype.Unknown? then 0 else n
    {
      hide Ready, FitsAll, VisitsAll, ObjsAll, Recorded, Histories;
      ghost var visits, before, first := VisitsAll(shapes, ""), Histories(), nStat;
      RecordedNone(env, before, first);
      var i := 0;
      while i < n
        invariant i <= n && Ready() && nRounds == old(nRounds) + i
        invariant trace == old(trace) + Repeated(visits, i) && nStat == first + |Repeated(visits, i)|
        invariant Histories() == Recorded(env, before, Repeated(visits, i), first)
        invariant forall o :: o in all ==> |o.history| == |old(o.history)| + if o.ftype.Unknown? then 0 else i
      {
        RecordedSum(env, before, Repeated(visits, i), visits, first);
        CountedRound();
        i := i + 1;
      }
    }

    /** What the counters and the logs say at any time when memory never ran out. */
    lemma LogsAndCounters()
      requires Ready() && AlwaysMemory(env)
      ensures nTargets == |ObjsAll(shapes)|
      ensures nEvents == Sum(LogLengths(ObjsAll(shapes)))
      ensures forall o :: o in all ==> o.events == [o.ack] + Destutter(o.ack.st, o.history)
    {
      forall o | o in all
        ensures o.events == [o.ack] + Destutter(o.ack.st, o.history)
      {
        assert o.LogMatches();
        LogIsDestutteredHistory(o.ack, o.history);
      }
    }
  }

  /** What one call of Create adds to the children made so far: nothing or one tree. */
  lemma AddMade(kids: seq<Shape>, made: seq<Shape>, p: string, name: string)
    requires LinkedAll(kids) && SeparateAll(kids) && MadeUnder(kids, p)
    requires LinkedAll(made) && SeparateAll(made) && ObjSetAll(kids) !! ObjSetAll(made)
    requires name != "" && name != "." && '/' !in name
    requires made == [] || (|made| == 1 && MadeAlong(made[0], Attach(p, name)))
    ensures var more := kids + made;
            && LinkedAll(more) && SeparateAll(more) && MadeUnder(more, p)
            && PictureAll(more) == PictureAll(kids) + PictureAll(made)
            && ObjsAll(more) == ObjsAll(kids) + ObjsAll(made)
            && ObjSetAll(more) == ObjSetAll(kids) + ObjSetAll(made)
            && (made == [] ==> ObjsAll(made) == [] && PictureAll(made) == [])
  {
    hide Linked, LinkedAll, Separate, SeparateAll, Objs, ObjsAll, Basename, Picture, PictureAll, MadeUnder, MadeAlong,
         Attach;
    NoShapes(p);
    if made == [] {
      assert kids + made == kids;
      assert ObjsAll(kids) + [] == ObjsAll(kids) && PictureAll(kids) + [] == PictureAll(kids);
    } else {
      assert made == [made[0]];
      AddKid(kids, made[0], p, name);
    }
  }

  lemma AddRoots(shapes: seq<Shape>, made: seq<Shape>)
    requires LinkedAll(shapes) && SeparateAll(shapes)
    requires LinkedAll(made) && SeparateAll(made) && ObjSetAll(shapes) !! ObjSetAll(made) && |made| <= 1
    ensures var more := shapes + made;
            && LinkedAll(more) && SeparateAll(more) && ObjsAll(more) == ObjsAll(shapes) + ObjsAll(made)
            && ObjSetAll(more) == ObjSetAll(shapes) + ObjSetAll(made)
            && (made == [] ==> more == shapes && ObjsAll(made) == [])
  {
    hide Linked, LinkedAll, Separate, SeparateAll, Objs, ObjsAll, Picture, PictureAll;
    NoShapes("");
    if made == [] {
      assert shapes + made == shapes && ObjsAll(shapes) + [] == ObjsAll(shapes);
    } else {
      assert made == [made[0]];
      SingleShape(made[0]);
      AddShape(shapes, made[0]);
    }
  }

  function Repeated<T>(s: seq<T>, n: nat): seq<T> {
    if n == 0 then [] else Repeated(s, n - 1) + s
  }

  /** Visits of distinct targets add exactly one observation to each of them. */
  lemma {:induction false} RecordedOnceEach(env: Env, h: map<Target, seq<Obs>>, visits: seq<Visit>, n: nat)
    requires Once(visits) && TargetsOf(visits) <= h.Keys
    ensures var r := Recorded(env, h, visits, n);
            && r.Keys == h.Keys
            && forall o :: o in h ==> |r[o]| == |h[o]| + if o in TargetsOf(visits) then 1 else 0
    decreases visits
  {
    if visits != [] {
      var k := |visits| - 1;
      var front, v := visits[..k], visits[k];
      assert visits == front + [v];
      TargetsOfSum(front, [v]);
      assert [v][0].target == v.target;
      assert TargetsOf([v]) == {v.target};
      assert v.target !in TargetsOf(front);
      RecordedOnceEach(env, h, front, n);
    }
  }

  lemma BuildNothing(env: Env, n: nat, p: string)
    ensures BuildAll(env, n, p, []) == Made([], n)
  {
  }

  lemma BuildAllSnoc(env: Env, n: nat, p: string, listing: seq<Entry>, i: nat)
    requires i < |listing|
    ensures var front := BuildAll(env, n, p, listing[..i]);
            BuildAll(env, n, p, listing[..i + 1]) ==
            if IsDots(listing[i].name) then front
            else
              var r := Build(env, front.calls, Attach(p, listing[i].name), listing[i]);
              Made(front.trees + r.trees, r.calls)
  {
    assert listing[..i + 1][..i] == listing[..i];
  }

  lemma NoShapes(p: string)
    ensures ObjsAll([]) == [] && LinkedAll([]) && SeparateAll([]) && MadeUnder([], p) && PictureAll([]) == []
  {
  }

  lemma AddShape(kids: seq<Shape>, sh: Shape)
    ensures ObjsAll(kids + [sh]) == ObjsAll(kids) + Objs(sh)
    ensures ObjSetAll(kids + [sh]) == ObjSetAll(kids) + ObjSet(sh)
    ensures PictureAll(kids + [sh]) == PictureAll(kids) + [Picture(sh)]
    ensures LinkedAll(kids + [sh]) <==> LinkedAll(kids) && Linked(sh)
    ensures SeparateAll(kids + [sh]) <==> SeparateAll(kids) && Separate(sh) && ObjSetAll(kids) !! ObjSet(sh)
  {
  }

  lemma SingleShape(sh: Shape)
    ensures ObjsAll([sh]) == Objs(sh) && ObjSetAll([sh]) == ObjSet(sh) && PictureAll([sh]) == [Picture(sh)]
    ensures LinkedAll([sh]) <==> Linked(sh)
    ensures SeparateAll([sh]) <==> Separate(sh)
  {
  }

  lemma NewTree(t: Target, kids: seq<Shape>, p: string)
    requires t.madeAt == p && t.name == Basename(p) && '\0' !in p && MadeUnder(kids, p)
    requires |t.children| == |kids| && forall i :: 0 <= i < |kids| ==> t.children[i] == kids[i].obj
    requires LinkedAll(kids) && SeparateAll(kids) && t !in ObjSetAll(kids) && (!t.ftype.Directory? ==> kids == [])
    ensures var sh := Shape(t, kids);
            && MadeAlong(sh, p) && LinkedAll([sh]) && SeparateAll([sh])
            && ObjsAll([sh]) == ObjsAll(kids) + [t] && ObjSetAll([sh]) == ObjSetAll(kids) + {t}
            && PictureAll([sh]) == [Tree(t.name, t.ftype, t.ack, PictureAll(kids))]
  {
    hide LinkedAll, SeparateAll, MadeUnder, ObjsAll, PictureAll;
    var sh := Shape(t, kids);
    SingleShape(sh);
    ObjSetSplit(sh);
    assert '\0' !in Basename(p) by { assert p[|p| - |Basename(p)|..] == Basename(p); }
  }

  lemma AddKid(kids: seq<Shape>, sh: Shape, p: string, name: string)
    requires LinkedAll(kids) && SeparateAll(kids) && MadeUnder(kids, p)
    requires LinkedAll([sh]) && SeparateAll([sh]) && ObjSetAll(kids) !! ObjSetAll([sh])
    requires name != "" && name != "." && '/' !in name && MadeAlong(sh, Attach(p, name))
    ensures var more := kids + [sh];
            && LinkedAll(more) && SeparateAll(more) && MadeUnder(more, p)
            && PictureAll(more) == PictureAll(kids) + PictureAll([sh])
            && ObjsAll(more) == ObjsAll(kids) + ObjsAll([sh]) && ObjSetAll(more) == ObjSetAll(kids) + ObjSetAll([sh])
  {
    hide Linked, LinkedAll, Separate, SeparateAll, Objs, ObjsAll, Basename, Picture, PictureAll;
    SingleShape(sh);
    AddShape(kids, sh);
    BasenameOfTail(AttachPrefix(p), name);
    assert (kids + [sh])[..|kids|] == kids;
  }

  lemma LogSnoc(ack: Event, history: seq<Obs>, o: Obs)
    ensures Log(ack, history + [o]) == Track(Log(ack, history), o)
  {
  }
}
