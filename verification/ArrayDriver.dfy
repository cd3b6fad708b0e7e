/** The byte-level array refines the plain sequence: any run of calls ends in the state the specification gives. */
module ArrayDriver {
  import opened CMachine
  import opened Chunks
  import opened ArraySpec
  import opened ByteArray
  import opened ArrayRuns
  import opened ArrayMeaning

  /** A temporary array that borrows a buffer holding `es`. */
  method Holding(es: seq<Elem>, size: nat) returns (other: Array)
    requires 0 < size <= SIZE_MAX && AllSized(es, size) && Offset(|es|, size) <= OBJECT_MAX
    ensures fresh(other) && fresh(other.data) && other.Valid()
    ensures other.eltSize == size && other.nmemb == |es| && other.View().elems == es
  {
    hide Cut, Offset;
    CutOfFlatten(es, size);
    var bytes := Flatten(es);
    var buffer := new byte[|bytes|];
    Memcpy(buffer, 0, bytes);
    assert buffer[..] == bytes;
    other := new Array.Raw(buffer, |es|, size, false, false, true);
  }

  /** Writes elements into the spare bytes and claims them. */
  method WriteAndClaim(a: Array, es: seq<Elem>) returns (ok: bool)
    requires a.Valid() && AllSized(es, a.eltSize)
    modifies a, a.data
    ensures a.Valid() && a.data == old(a.data)
    ensures Outcome(a.View(), ok) == Claim(old(a.View()), es)
  {
    hide Cut, Offset;
    if |es| > a.UninitializedSize() {
      ok := a.AppendFromCapacity(|es|);
      return;
    }
    var off := Offset(a.nmemb, a.eltSize);
    CutOfFlatten(es, a.eltSize);
    ClaimKeeps(a.View(), es);
    OffsetSum(a.nmemb, |es|, a.eltSize);
    var bytes := Flatten(es);
    ghost var was, view := a.data[..], a.View();
    a.Tipex(off, bytes);
    PatchSlices(was, off, bytes);
    CutIgnoresTail(was, a.data[..], a.eltSize, a.nmemb);
    assert a.Valid() && a.View() == view;
    ok := a.AppendFromCapacity(|es|);
    var spare := a.data[..][off..];
    assert spare[..|bytes|] == bytes == bytes[..|bytes|];
    CutIgnoresTail(spare, bytes, a.eltSize, |es|);
  }

  method PerformGrowth(a: Array, c: Call) returns (ok: bool)
    requires a.Valid() && Enabled(a.View(), c.op) && Grows(c.op)
    requires c.op.DoConcat? ==> Offset(|c.op.es|, a.eltSize) <= OBJECT_MAX
    modifies a, a.data
    ensures a.Valid() && (a.data == old(a.data) || (fresh(a.data) && !old(a.settled)))
    ensures Outcome(a.View(), ok) == Step(old(a.View()), c)
  {
    hide Cut, Offset, Adjust, SizeAlign, Flatten, ArraySpec.Valid;
    ElementsFit(a.View());
    assert |Given(c.op)| == 1 ==> |Given(c.op)[0]| == a.eltSize;
    match c.op {
      case DoPush(e) => ok := a.Push(e, c.alloc);
      case DoPushFront(e) => ok := a.PushFront(e, c.alloc);
      case DoInsert(p, e) => ok := a.Insert(p, e, c.alloc);
      case DoInject(p, es) => CutOfFlatten(es, a.eltSize); ok := a.Inject(p, Flatten(es), |es|, c.alloc);
      case DoAppend(es) => CutOfFlatten(es, a.eltSize); ok := a.Append(Flatten(es), |es|, c.alloc);
      case DoConcat(es) => var other := Holding(es, a.eltSize); ok := a.Concat(other, c.alloc);
    }
  }

  method Perform(a: Array, c: Call) returns (ok: bool)
    requires a.Valid() && Enabled(a.View(), c.op)
    requires c.op.DoConcat? ==> Offset(|c.op.es|, a.eltSize) <= OBJECT_MAX
    modifies a, a.data
    ensures a.Valid() && (a.data == old(a.data) || (fresh(a.data) && !old(a.settled)))
    ensures !Grows(c.op) && !c.op.DoSlim? ==> a.data == old(a.data)
    ensures Outcome(a.View(), ok) == Step(old(a.View()), c)
  {
    hide Cut, Offset, Adjust, Claim, SizeAlign, AdjustGuards, ArraySpec.Valid;
    if Grows(c.op) {
      ok := PerformGrowth(a, c);
      return;
    }
    ok := true;
    match c.op {
      case DoPop => var _ := a.Pop();
      case DoPopFront => var _ := a.PopFront();
      case DoEvict(p) => a.Evict(p);
      case DoWipe(start, end) => a.Wipe(start, end);
      case DoClear => a.Clear();
      case DoSwap(p, q) => a.SwapElems(p, q);
      case DoSlim => ok := a.Slimcheck(c.alloc);
      case DoClaim(es) => ok := WriteAndClaim(a, es);
      case DoSettle => a.Settle();
      case DoUnsettle => a.Unsettle();
    }
  }

  predicate ObjectsFit(calls: seq<Call>, size: nat) {
    forall i :: 0 <= i < |calls| && calls[i].op.DoConcat? ==> Offset(|calls[i].op.es|, size) <= OBJECT_MAX
  }

  /** The array is settled before the run or by its first call, and never unsettled. */
  predicate SettledThroughout(settled: bool, calls: seq<Call>) {
    && (settled || (calls != [] && calls[0].op.DoSettle?))
    && forall i :: 0 <= i < |calls| ==> !calls[i].op.DoUnsettle?
  }

  /** Any run on the bytes is the same run on the sequence; if it is settled throughout, the data pointer stays. */
  method Drive(a: Array, calls: seq<Call>)
    requires a.Valid() && Runnable(a.View(), calls) && ObjectsFit(calls, a.eltSize)
    modifies a, a.data
    ensures a.Valid() && a.View() == Run(old(a.View()), calls)
    ensures a.data == old(a.data) || fresh(a.data)
    ensures SettledThroughout(old(a.settled), calls) ==> a.data == old(a.data) && a.settled
    ensures !old(a.isOwner) ==> a.data == old(a.data) && a.settled
  {
    hide Cut, Offset, Step, Enabled;
    ghost var start := a.View();
    assert calls[0..] == calls;
    var i := 0;
    while i < |calls|
      invariant i <= |calls| && a.Valid()
      invariant a.data == old(a.data) || fresh(a.data)
      invariant Runnable(a.View(), calls[i..]) && Run(a.View(), calls[i..]) == Run(start, calls)
      invariant a.eltSize == old(a.eltSize) && a.isOwner == old(a.isOwner)
      invariant !old(a.isOwner) ==> a.data == old(a.data) && a.settled
      invariant SettledThroughout(old(a.settled), calls) ==> a.data == old(a.data) && (a.settled || i == 0)
      invariant i == 0 ==> a.settled == old(a.settled)
    {
      ghost var rest, view := calls[i..], a.View();
      assert rest[0] == calls[i] && rest[1..] == calls[i + 1..];
      StepKeeps(view, calls[i]);
      if view.settled {
        SettledStep(view, calls[i]);
      } else if calls[i].op.DoSettle? {
        InPlaceMeans(view, calls[i]);
      }
      var _ := Perform(a, calls[i]);
      i := i + 1;
    }
  }
}
