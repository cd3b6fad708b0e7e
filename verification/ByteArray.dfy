/** array_t: elements of `eltSize` bytes packed in one byte buffer and moved in place. */
module ByteArray {
  import opened CMachine
  import opened Chunks
  import opened ArraySpec

  class Array {
    var data: array<byte>
    var nmemb: nat
    var cap: nat
    var eltSize: nat
    var isOwner: bool
    var settled: bool
    var hasFree: bool          // a destructor is installed
    ghost var freed: seq<Elem> // what the destructor was called on
    ghost var copied: nat      // capacities given up by growth, added up

    ghost predicate InBounds()
      reads this, data
    {
      data.Length == cap && Offset(nmemb, eltSize) <= cap
    }

    /** The elements: the buffer cut into chunks. */
    ghost function View(): Arr
      requires InBounds()
      reads this, data
    {
      Arr(Cut(data[..], eltSize, nmemb), eltSize, cap, isOwner, settled, hasFree, freed, copied)
    }

    ghost predicate Valid()
      reads this, data
    {
      InBounds() && ArraySpec.Valid(View())
    }

    constructor Raw(buffer: array<byte>, n: nat, size: nat, free: bool, owner: bool, fixed: bool)
      requires 0 < size <= SIZE_MAX && buffer.Length <= OBJECT_MAX && Offset(n, size) <= buffer.Length
      requires owner || fixed
      ensures data == buffer && Valid()
      ensures View() == Arr(Cut(buffer[..], size, n), size, buffer.Length, owner, fixed, free, [], 0)
    {
      data, nmemb, cap, eltSize := buffer, n, buffer.Length, size;
      isOwner, settled, hasFree := owner, fixed, free;
      freed, copied := [], 0;
    }

    // ----- making and releasing -----

    static method Create(size: nat, n: nat, free: bool, alloc: bool) returns (a: Array?)
      requires 0 < size <= SIZE_MAX && n <= SIZE_MAX && SafeToMul(size, n)
      ensures var cap := SizeAlign(Wrap(size * if n == 0 then INITIAL_SIZE else n));
              && (a != null <==> alloc && cap <= OBJECT_MAX)
              && (a != null ==> fresh(a) && fresh(a.data) && a.Valid())
              && (a != null ==> a.View() == Arr([], size, cap, true, false, free, [], 0))
    {
      hide Offset, Cut, SizeAlign, SafeToMul;
      OffsetUnit(size);
      var count := if n == 0 then INITIAL_SIZE else n;
      var initCap := SizeAlign(Wrap(size * count));
      if !alloc || initCap > OBJECT_MAX {
        return null;
      }
      var buffer := new byte[initCap];
      a := new Array.Raw(buffer, 0, size, free, true, false);
    }

    static method SeizeBuffer(buffer: array<byte>, size: nat, n: nat, free: bool, alloc: bool) returns (a: Array?)
      requires 0 < size <= SIZE_MAX && buffer.Length <= OBJECT_MAX && Offset(n, size) <= buffer.Length
      ensures a != null <==> alloc
      ensures a != null ==> fresh(a) && a.data == buffer && a.Valid()
                            && a.View() == Arr(Cut(buffer[..], size, n), size, buffer.Length, true, false, free, [], 0)
    {
      if !alloc {
        return null;
      }
      a := new Array.Raw(buffer, n, size, free, true, false);
    }

    static method BorrowBuffer(buffer: array<byte>, size: nat, n: nat, free: bool, alloc: bool) returns (a: Array?)
      requires 0 < size <= SIZE_MAX && buffer.Length <= OBJECT_MAX && Offset(n, size) <= buffer.Length
      ensures a != null <==> alloc
      ensures a != null ==> fresh(a) && a.data == buffer && a.Valid()
                            && a.View() == Arr(Cut(buffer[..], size, n), size, buffer.Length, false, true, free, [], 0)
    {
      if !alloc {
        return null;
      }
      a := new Array.Raw(buffer, n, size, free, false, true);
    }

    /** Calls the destructor on the element at position `p`. */
    method RunDestructor(p: nat, ghost elems: seq<Elem>)
      requires Offset(|elems|, eltSize) <= data.Length && elems == Cut(data[..], eltSize, |elems|)
      requires p < |elems|
      modifies `freed
      ensures freed == old(freed) + [elems[p]]
    {
      hide Offset, Cut;
      ElementBytes(data[..], eltSize, |elems|, p);
      freed := freed + [data[Offset(p, eltSize)..Offset(p, eltSize) + eltSize]];
    }

    /** Destroys elements from the last to the first; the counter wraps below zero before it is reset. */
    method Clear()
      requires Valid()
      modifies `nmemb, `freed
      ensures Valid() && data == old(data)
      ensures View() == ArraySpec.Clear(old(View()))
    {
      hide Offset, Cut;
      OffsetUnit(eltSize);
      if hasFree {
        RunDestructorsDown();
      }
      nmemb := 0;
    }

    /** The wrapping counter loop of array_clear. */
    method RunDestructorsDown()
      requires Valid()
      modifies `nmemb, `freed
      ensures freed == old(freed) + Reverse(old(View()).elems) && nmemb == SIZE_MAX
    {
      hide Offset, Cut;
      SizeFits(View());
      ghost var elems, count := View().elems, nmemb;
      var more := nmemb != 0;
      nmemb := Wrap(nmemb - 1);
      ghost var left := count;
      assert elems[..left] == elems;
      while more
        invariant 0 <= left <= count && more == (left > 0) && nmemb == if left == 0 then SIZE_MAX else left - 1
        invariant freed + Reverse(elems[..left]) == old(freed) + Reverse(elems)
        decreases left
      {
        RunDestructor(nmemb, elems);
        ReverseStep(elems, left);
        left := left - 1;
        more := nmemb != 0;
        nmemb := Wrap(nmemb - 1);
      }
    }

    /** Clears and gives everything back; only an owned buffer is released. */
    method Kill() returns (releasesBuffer: bool)
      requires Valid()
      modifies this
      ensures releasesBuffer == old(isOwner) && data == old(data)
      ensures Valid() && View() == ArraySpec.Clear(old(View()))
    {
      Clear();
      releasesBuffer := isOwner;
    }

    method Settle()
      requires Valid()
      modifies `settled
      ensures Valid() && View() == ArraySpec.Settle(old(View()))
    {
      settled := true;
    }

    method Unsettle()
      requires Valid() && isOwner
      modifies `settled
      ensures Valid() && View() == ArraySpec.Unsettle(old(View()))
    {
      settled := false;
    }

    // ----- capacity -----

    method Adjust(n: nat, alloc: bool) returns (ok: bool)
      requires Valid() && AdjustGuards(View(), n)
      modifies this
      ensures Valid() && (data == old(data) || (fresh(data) && !old(settled)))
      ensures Outcome(View(), ok) == ArraySpec.Adjust(old(View()), n, alloc)
      ensures nmemb == old(nmemb) && eltSize == old(eltSize)
      ensures ok ==> Offset(nmemb + n, eltSize) <= cap
    {
      var need := Wrap(Wrap(n + nmemb) * eltSize);
      assert Wrap(n + nmemb) == nmemb + n && need == Offset(nmemb + n, eltSize) by {
        assert Offset(nmemb + n, eltSize) <= SIZE_MAX;
      }
      OffsetMonotone(nmemb, nmemb + n, eltSize);
      ok := Reserve(need, alloc);
    }

    /** The rest of array_adjust, from the number of bytes asked for. */
    method Reserve(need: nat, alloc: bool) returns (ok: bool)
      requires Valid() && need <= SIZE_MAX && Alignable(View(), need)
      modifies this
      ensures Valid() && (data == old(data) || (fresh(data) && !old(settled)))
      ensures Outcome(View(), ok) == ArraySpec.Reserve(old(View()), need, alloc)
      ensures nmemb == old(nmemb) && eltSize == old(eltSize)
      ensures ok ==> need <= cap
    {
      hide Offset, Cut, SizeAlign;
      if need < cap {
        return true;
      }
      if settled {
        return false;
      }
      var cap2 := Wrap(cap * 2);
      if cap2 < INITIAL_SIZE {
        cap2 := INITIAL_SIZE;
      } else if cap2 > INT_MAX {
        return false;
      }
      var newSize := if need > cap2 then SizeAlign(need) else cap2;
      if !alloc || newSize > OBJECT_MAX {
        return false;
      }
      GrownCapCovers(cap, need);
      ghost var was := data[..];
      var ptr := Realloc(data, newSize);
      CutIgnoresTail(was, ptr[..], eltSize, nmemb);
      copied := copied + cap;
      data := ptr;
      cap := newSize;
      return true;
    }

    method Slimcheck(alloc: bool) returns (ok: bool)
      requires Valid() && SlimGuard(View())
      modifies this
      ensures Valid() && (data == old(data) || (fresh(data) && !old(settled)))
      ensures Outcome(View(), ok) == Slim(old(View()), alloc)
    {
      hide Offset, Cut;
      if settled {
        return false;
      }
      if cap != 0 {
        var size := Offset(nmemb, eltSize);
        if size < cap / 2 {
          if !alloc {
            return false;
          }
          var ptr := Realloc(data, size);
          CutIgnoresTail(data[..], ptr[..], eltSize, nmemb);
          data := ptr;
          cap := size;
        }
      }
      return true;
    }

    // ----- putting elements in -----

    method Push(e: Elem, alloc: bool) returns (ok: bool)
      requires Valid() && |e| == eltSize && AdjustGuards(View(), 1)
      modifies this, data
      ensures Valid() && (data == old(data) || (fresh(data) && !old(settled)))
      ensures Outcome(View(), ok) == ArraySpec.Push(old(View()), e, alloc)
    {
      hide Offset, Cut;
      ok := Adjust(1, alloc);
      if !ok {
        return;
      }
      CutOne(e, eltSize);
      WriteAt(nmemb, e, 1);
    }

    method Append(src: seq<byte>, n: nat, alloc: bool) returns (ok: bool)
      requires Valid() && |src| == Offset(n, eltSize) && AdjustGuards(View(), n)
      modifies this, data
      ensures Valid() && (data == old(data) || (fresh(data) && !old(settled)))
      ensures Outcome(View(), ok) == ArraySpec.Append(old(View()), Cut(src, old(eltSize), n), alloc)
    {
      hide Offset, Cut;
      ok := Adjust(n, alloc);
      if !ok {
        return;
      }
      WriteAt(nmemb, src, n);
    }

    method Concat(other: Array, alloc: bool) returns (ok: bool)
      requires Valid() && other.Valid() && (other != this ==> other.data != data)
      requires eltSize == other.eltSize && AdjustGuards(View(), nmemb + other.nmemb)
      modifies this, data
      ensures Valid() && (data == old(data) || (fresh(data) && !old(settled)))
      ensures Outcome(View(), ok) == ArraySpec.Concat(old(View()), old(other.View()).elems, alloc)
      ensures other.Valid() && (other != this ==> other.View() == old(other.View()))
    {
      hide Offset, Cut, AdjustGuards, ArraySpec.Adjust;
      AdjustMakesRoom(View(), nmemb + other.nmemb, alloc);
      ok := Adjust(nmemb + other.nmemb, alloc);
      if !ok {
        return;
      }
      OffsetMonotone(nmemb + other.nmemb, nmemb + (nmemb + other.nmemb), eltSize);
      var bytes := other.data[..Offset(other.nmemb, other.eltSize)];
      CutIgnoresTail(bytes, other.data[..], eltSize, other.nmemb);
      WriteAt(nmemb, bytes, other.nmemb);
    }

    /** Opens a gap at position `p`, copies `m` elements into it and counts them in. */
    method WriteAt(p: nat, src: seq<byte>, m: nat)
      requires Valid() && p <= nmemb && |src| == Offset(m, eltSize) && Offset(nmemb + m, eltSize) <= cap
      modifies `nmemb, data
      ensures Valid() && data == old(data)
      ensures View() == old(View()).(elems := old(View()).elems[..p] + Cut(src, eltSize, m) + old(View()).elems[p..])
    {
      hide Offset, Cut;
      var at, tail := Offset(p, eltSize), Offset(nmemb - p, eltSize);
      Offsets(eltSize, p, nmemb, m);
      ghost var was := data[..];
      OpenAndCopy(data, at, tail, src);
      AfterWrite(was, data[..], eltSize, nmemb, p, src, m, at, at + tail);
      nmemb := nmemb + m;
    }

    method Insert(p: nat, e: Elem, alloc: bool) returns (ok: bool)
      requires Valid() && p <= nmemb && |e| == eltSize && AdjustGuards(View(), 1)
      modifies this, data
      ensures Valid() && (data == old(data) || (fresh(data) && !old(settled)))
      ensures Outcome(View(), ok) == ArraySpec.Insert(old(View()), p, e, alloc)
    {
      hide Offset, Cut;
      ok := Adjust(1, alloc);
      if !ok {
        return;
      }
      CutOne(e, eltSize);
      WriteAt(p, e, 1);
    }

    method Inject(p: nat, src: seq<byte>, n: nat, alloc: bool) returns (ok: bool)
      requires Valid() && p <= nmemb && |src| == Offset(n, eltSize) && p + n <= SIZE_MAX && AdjustGuards(View(), n)
      modifies this, data
      ensures Valid() && (data == old(data) || (fresh(data) && !old(settled)))
      ensures Outcome(View(), ok) == ArraySpec.Inject(old(View()), p, Cut(src, old(eltSize), n), alloc)
    {
      hide Offset, Cut;
      ok := Adjust(n, alloc);
      if !ok {
        return;
      }
      if n == 0 {
        return;
      }
      WriteAt(p, src, n);
    }

    method PushFront(e: Elem, alloc: bool) returns (ok: bool)
      requires Valid() && |e| == eltSize && AdjustGuards(View(), 1)
      modifies this, data
      ensures Valid() && (data == old(data) || (fresh(data) && !old(settled)))
      ensures Outcome(View(), ok) == ArraySpec.Insert(old(View()), 0, e, alloc)
    {
      ok := Insert(0, e, alloc);
    }

    // ----- taking elements out -----

    /** `out` is what is copied to the caller before the destructor runs. */
    method Pop() returns (out: Elem)
      requires Valid() && nmemb > 0
      modifies `nmemb, `freed
      ensures Valid() && data == old(data)
      ensures View() == ArraySpec.Pop(old(View()))
      ensures out == old(View()).elems[old(nmemb) - 1]
    {
      hide Offset, Cut;
      ElementBytes(data[..], eltSize, nmemb, nmemb - 1);
      CutSplit(data[..], eltSize, nmemb - 1, 1);
      ghost var elems := View().elems;
      var last := nmemb - 1;
      out := data[Offset(last, eltSize)..Offset(last, eltSize) + eltSize];
      if hasFree {
        RunDestructor(last, elems);
      }
      nmemb := last;
    }

    /** Closes the gap from position `p` to position `q`. */
    method CloseGap(p: nat, q: nat)
      requires Valid() && p <= q <= nmemb
      modifies `nmemb, data
      ensures Valid() && data == old(data)
      ensures View() == old(View()).(elems := old(View()).elems[..p] + old(View()).elems[q..])
    {
      hide Offset, Cut, Patch;
      var at, from, tail := Offset(p, eltSize), Offset(q, eltSize), Offset(nmemb - q, eltSize);
      Offsets(eltSize, p, q, 0);
      Offsets(eltSize, q, nmemb, 0);
      ghost var was := data[..];
      Memmove(data, at, from, tail);
      AfterMove(was, data[..], eltSize, nmemb, p, q, at, from, from + tail);
      nmemb := nmemb - (q - p);
    }

    method Evict(p: nat)
      requires Valid() && p < nmemb
      modifies `nmemb, `freed, data
      ensures Valid() && data == old(data)
      ensures View() == ArraySpec.Evict(old(View()), p)
    {
      hide Offset, Cut;
      if hasFree {
        RunDestructor(p, View().elems);
      }
      CloseGap(p, p + 1);
    }

    method PopFront() returns (out: Elem)
      requires Valid() && nmemb > 0
      modifies `nmemb, `freed, data
      ensures Valid() && data == old(data)
      ensures View() == ArraySpec.Evict(old(View()), 0)
      ensures out == old(View()).elems[0]
    {
      hide Offset, Cut;
      OffsetUnit(eltSize);
      ElementBytes(data[..], eltSize, nmemb, 0);
      out := data[..eltSize];
      Evict(0);
    }

    /** The destructor loop counts from 0, not from `start`. */
    method Wipe(start: nat, end: nat)
      requires Valid() && start <= end <= nmemb
      modifies `nmemb, `freed, data
      ensures Valid() && data == old(data)
      ensures View() == ArraySpec.Wipe(old(View()), start, end)
    {
      hide Offset, Cut;
      if hasFree {
        RunDestructors(end - start);
      }
      CloseGap(start, end);
    }

    method RunDestructors(n: nat)
      requires Valid() && n <= nmemb
      modifies `freed
      ensures freed == old(freed) + View().elems[..n]
    {
      hide Offset, Cut;
      ghost var elems := View().elems;
      var i := 0;
      while i < n
        invariant i <= n
        invariant freed == old(freed) + elems[..i]
      {
        RunDestructor(i, elems);
        i := i + 1;
      }
    }

    // ----- in place -----

    method SwapElems(a: nat, b: nat)
      requires Valid() && a < nmemb && b < nmemb
      modifies data
      ensures Valid()
      ensures View() == ArraySpec.SwapElems(old(View()), a, b)
    {
      hide Offset, Cut, Exchanged;
      ElementBytes(data[..], eltSize, nmemb, a);
      ElementBytes(data[..], eltSize, nmemb, b);
      var p, q := Offset(a, eltSize), Offset(b, eltSize);
      if a != b {
        DistinctSlots(a, b, eltSize);
      }
      ghost var was := data[..];
      XorSwap(data, p, q, eltSize);
      AfterSwap(was, data[..], eltSize, nmemb, a, b, p, q);
    }

    /** array_tipex: raw bytes anywhere in the buffer. */
    method Tipex(off: nat, src: seq<byte>)
      requires Valid() && off + |src| <= cap
      modifies data
      ensures data[..] == Patch(old(data[..]), off, src)
    {
      Memcpy(data, off, src);
    }

    /** How many more elements fit without reallocating. */
    function UninitializedSize(): nat
      requires Valid()
      reads this, data
    {
      SpareElements(cap, Offset(nmemb, eltSize), eltSize)
    }

    method AppendFromCapacity(n: nat) returns (ok: bool)
      requires Valid()
      modifies `nmemb
      ensures Valid() && data == old(data)
      ensures ok == (n <= Spare(old(View())))
      ensures ok ==> Offset(old(nmemb), eltSize) <= |data[..]|
                     && Offset(n, eltSize) <= |data[Offset(old(nmemb), eltSize)..]|
      ensures View() == if !ok then old(View())
                        else
                          var spare := data[Offset(old(nmemb), eltSize)..];
                          old(View()).(elems := old(View()).elems + Cut(spare, eltSize, n))
    {
      hide Offset, Cut;
      if n > UninitializedSize() {
        return false;
      }
      SpareFits(cap, nmemb, eltSize, n);
      CutSplit(data[..], eltSize, nmemb, n);
      nmemb := nmemb + n;
      return true;
    }

    // ----- copies -----

    method Pull(start: int, end: int, alloc: bool) returns (arr: Array?)
      requires Valid() && Pullable(nmemb, start) && Pullable(nmemb, end)
      ensures arr != null <==> alloc
      ensures arr != null ==>
        var elems := PullElems(View().elems, start, end);
        fresh(arr) && fresh(arr.data) && arr.Valid()
        && arr.View() == Arr(elems, eltSize, Offset(|elems|, eltSize), true, true, hasFree, [], 0)
    {
      hide Offset, Cut, Walk, ArraySpec.Valid;
      var from := if start < 0 then start + nmemb else start;
      var to := if end < 0 then end + nmemb else end;
      arr := PullRange(from, to, alloc);
    }

    /** array_pull once negative positions are resolved. */
    method PullRange(from: nat, last: nat, alloc: bool) returns (arr: Array?)
      requires Valid() && from < nmemb && last < nmemb
      ensures arr != null <==> alloc
      ensures arr != null ==>
        var elems := Walk(View().elems, from, last);
        fresh(arr) && fresh(arr.data) && arr.Valid()
        && arr.View() == Arr(elems, eltSize, Offset(|elems|, eltSize), true, true, hasFree, [], 0)
    {
      hide Offset, Cut, Backwards, ArraySpec.Valid;
      ElementsFit(View());
      var to := if from < last then last + 1 else last - 1;
      var n := if from < to then to - from else from - to;
      OffsetMonotone(n, nmemb, eltSize);
      if !alloc {
        return null;
      }
      var buffer := new byte[Offset(n, eltSize)];
      if from < to {
        CopyForwards(buffer, from, n);
      } else {
        CopyBackwards(buffer, from, n);
      }
      arr := new Array.Raw(buffer, n, eltSize, hasFree, true, true);
    }

    /** The single memcpy of array_pull. */
    method CopyForwards(buffer: array<byte>, from: nat, n: nat)
      requires Valid() && buffer != data && buffer.Length == Offset(n, eltSize) && from + n <= nmemb
      modifies buffer
      ensures Valid() && View() == old(View())
      ensures Cut(buffer[..], eltSize, n) == View().elems[from..from + n]
    {
      hide Offset, Cut;
      var at, len := Offset(from, eltSize), Offset(n, eltSize);
      OffsetSum(from + n, nmemb - from - n, eltSize);
      OffsetSum(from, n, eltSize);
      var bytes := data[at..at + len];
      assert bytes <= data[..][at..];
      SliceOfElements(data[..], bytes, eltSize, nmemb, from, n, at);
      Memcpy(buffer, 0, bytes);
      assert buffer[..] == bytes;
    }

    /** The element-wise loop of array_pull. */
    method CopyBackwards(buffer: array<byte>, from: nat, n: nat)
      requires Valid() && buffer != data && buffer.Length == Offset(n, eltSize) && n <= from + 1 && from < nmemb
      modifies buffer
      ensures Valid() && View() == old(View())
      ensures Cut(buffer[..], eltSize, n) == Backwards(View().elems, from, n)
    {
      hide Offset, Cut;
      OffsetUnit(eltSize);
      ghost var elems := View().elems;
      var at, ptr, k := from as int, 0, 0;
      while k < n
        invariant 0 <= k <= n && at == from - k && ptr == Offset(k, eltSize) <= buffer.Length
        invariant Cut(buffer[..], eltSize, k) == Backwards(elems, from, k)
        invariant Valid() && View() == old(View())
      {
        OffsetMonotone(k + 1, n, eltSize);
        OffsetSum(k, 1, eltSize);
        CopyOne(buffer, ptr, at, k);
        ptr := ptr + eltSize;
        at := at - 1;
        k := k + 1;
      }
    }

    method CopyOne(buffer: array<byte>, ptr: nat, at: nat, ghost k: nat)
      requires Valid() && buffer != data && at < nmemb && ptr == Offset(k, eltSize) && ptr + eltSize <= buffer.Length
      modifies buffer
      ensures Valid() && View() == old(View())
      ensures Offset(k + 1, eltSize) <= buffer.Length
      ensures Cut(buffer[..], eltSize, k + 1) == old(Cut(buffer[..], eltSize, k)) + [View().elems[at]]
    {
      hide Offset, Cut;
      ElementBytes(data[..], eltSize, nmemb, at);
      ghost var was := buffer[..];
      var off := Offset(at, eltSize);
      Memcpy(buffer, ptr, data[off..off + eltSize]);
      CutSnoc(was, buffer[..], eltSize, k, ptr, View().elems[at]);
    }

    /** `allocs(0)` answers for the new array and `allocs(i)` for the push of the i-th element, counted from 1. */
    method Filter(keep: Elem -> bool, allocs: nat -> bool) returns (f: Array?)
      requires Valid() && SafeToMul(eltSize, INITIAL_SIZE)
      ensures var made := Empty(eltSize, INITIAL_SIZE, hasFree);
              var r := PushKept(made, View().elems, nmemb, keep, allocs);
              && (f != null <==> allocs(0) && made.cap <= OBJECT_MAX && r.ok)
              && (f != null ==> fresh(f) && fresh(f.data) && f.Valid() && f.View() == r.st)
              && (f != null ==> f.View().elems == FilterElems(View().elems, keep))
    {
      hide Offset, Cut, ArraySpec.Push, SizeAlign, FilterElems, ArraySpec.Valid, PushKept;
      FilterFits(View());
      f := Create(eltSize, INITIAL_SIZE, hasFree, allocs(0));
      if f == null {
        return;
      }
      var ok := FilterLoop(f, keep, allocs);
      if !ok {
        var _ := f.Kill();
        f := null;
      }
    }

    /** The loop of array_filter, into an empty array. */
    method FilterLoop(f: Array, keep: Elem -> bool, allocs: nat -> bool) returns (ok: bool)
      requires Valid() && f.Valid() && f != this && f.data != data && f.eltSize == eltSize && f.View().elems == []
      requires nmemb <= SIZE_MAX && Offset(nmemb, eltSize) <= SIZE_MAX - 7
      modifies f, f.data
      ensures f.Valid() && (f.data == old(f.data) || fresh(f.data))
      ensures var r := PushKept(old(f.View()), View().elems, nmemb, keep, allocs);
              ok == r.ok && (ok ==> f.View() == r.st && f.View().elems == FilterElems(View().elems, keep))
    {
      hide Offset, Cut, ArraySpec.Push, FilterElems, ArraySpec.Valid, AdjustGuards;
      ghost var made, elems := f.View(), View().elems;
      var i := 0;
      while i < nmemb
        invariant i <= nmemb && f.Valid() && (f.data == old(f.data) || fresh(f.data))
        invariant Outcome(f.View(), true) == PushKept(made, elems, i, keep, allocs)
      {
        PushKeptFilters(made, elems, i, keep, allocs);
        ok := PushIfKept(f, i, keep, allocs(i + 1));
        if !ok {
          FailedPushStays(made, elems, i + 1, nmemb, keep, allocs);
          return;
        }
        i := i + 1;
      }
      PushKeptFilters(made, elems, i, keep, allocs);
      assert elems[..i] == elems;
      ok := true;
    }

    /** One turn of the loop in array_filter. */
    method PushIfKept(f: Array, i: nat, keep: Elem -> bool, alloc: bool) returns (ok: bool)
      requires Valid() && f.Valid() && f != this && f.data != data && i < nmemb
      requires f.eltSize == eltSize && AdjustGuards(f.View(), 1)
      modifies f, f.data
      ensures f.Valid() && (f.data == old(f.data) || fresh(f.data))
      ensures Outcome(f.View(), ok) ==
              if !keep(View().elems[i]) then Outcome(old(f.View()), true)
              else ArraySpec.Push(old(f.View()), View().elems[i], alloc)
    {
      hide Offset, Cut;
      ElementBytes(data[..], eltSize, nmemb, i);
      var off := Offset(i, eltSize);
      var elem := data[off..off + eltSize];
      ok := true;
      if keep(elem) {
        ok := f.Push(elem, alloc);
      }
    }

    method Dup(alloc: bool, allocGrowth: bool) returns (d: Array?)
      requires Valid()
      ensures var made := Empty(eltSize, nmemb, hasFree);
              var r := ArraySpec.Concat(made, View().elems, allocGrowth);
              && (d != null <==> alloc && made.cap <= OBJECT_MAX && r.ok)
              && (d != null ==> fresh(d) && fresh(d.data) && d.Valid() && d.View() == r.st)
              && (d != null ==> d.View().elems == View().elems)
    {
      hide Offset, Cut;
      SizeFits(View());
      OffsetProduct(nmemb, eltSize);
      SafeToMulIsExact(eltSize, nmemb);
      d := Create(eltSize, nmemb, hasFree, alloc);
      if d == null {
        return;
      }
      var ok := d.Concat(this, allocGrowth);
      if !ok {
        var _ := d.Kill();
        return null;
      }
    }
  }

  /** Element `i` is the slice at `Offset(i, e)`. */
  lemma {:induction false} ElementBytes(b: seq<byte>, e: nat, n: nat, i: nat)
    requires Offset(n, e) <= |b| && i < n
    ensures Offset(i, e) + e <= |b| && Cut(b, e, n)[i] == b[Offset(i, e)..Offset(i, e) + e]
  {
    OffsetSum(i, n - i, e);
    OffsetSum(1, n - i - 1, e);
    CutSplit(b, e, i, n - i);
    assert b[Offset(i, e)..][..e] == b[Offset(i, e)..Offset(i, e) + e];
  }

  /** Moving the tail up and writing `x` into the gap. */
  lemma BytesInserted(b: seq<byte>, gapped: seq<byte>, c: seq<byte>, at: nat, x: seq<byte>, to: nat)
    requires at <= to && to + |x| <= |b|
    requires gapped == Patch(b, at + |x|, b[at..to])
    requires c == Patch(gapped, at, x)
    ensures Spliced(b, c, at, x, at, to)
  {
    PatchSlices(gapped, at, x);
    PatchSlices(b, at + |x|, b[at..to]);
    assert gapped[..at] == gapped[..at + |x|][..at] == b[..at];
    assert c[at + |x|..][..to - at] == c[at + |x|..at + |x| + (to - at)];
    assert gapped[at + |x|..at + |x| + (to - at)] == b[at..to];
  }

  lemma BytesAppended(b: seq<byte>, c: seq<byte>, at: nat, x: seq<byte>)
    requires at + |x| <= |b|
    requires c == Patch(b, at, x)
    ensures Spliced(b, c, at, x, at, at)
  {
  }

  /** Makes room for `src` by moving the `tail` bytes from offset `at` up, if there are any, and copies it. */
  method OpenAndCopy(a: array<byte>, at: nat, tail: nat, src: seq<byte>)
    requires at + tail + |src| <= a.Length
    modifies a
    ensures Spliced(old(a[..]), a[..], at, src, at, at + tail)
  {
    hide *;
    ghost var was := a[..];
    if tail != 0 {
      Memmove(a, at + |src|, at, tail);
      ghost var gapped := a[..];
      Memcpy(a, at, src);
      BytesInserted(was, gapped, a[..], at, src, at + tail);
    } else {
      Memcpy(a, at, src);
      BytesAppended(was, a[..], at, src);
    }
  }

  lemma AfterWrite(b: seq<byte>, c: seq<byte>, e: nat, n: nat, p: nat, x: seq<byte>, m: nat, at: nat, to: nat)
    requires p <= n && |x| == Offset(m, e) && at == Offset(p, e) && to == Offset(n, e)
    requires Spliced(b, c, at, x, at, to)
    ensures Offset(n + m, e) <= |c|
    ensures Cut(c, e, n + m) == Cut(b, e, n)[..p] + Cut(x, e, m) + Cut(b, e, n)[p..]
  {
    hide Offset, Cut;
    CutSplice(b, c, e, n, p, p, x, m);
    assert p + m + (n - p) == n + m;
  }

  /** Byte offsets, linear in the number of elements. */
  lemma Offsets(e: nat, p: nat, n: nat, m: nat)
    requires p <= n
    ensures Offset(p, e) <= Offset(n, e)
    ensures Offset(n - p, e) == Offset(n, e) - Offset(p, e)
    ensures Offset(p + m, e) == Offset(p, e) + Offset(m, e)
    ensures Offset(n + m, e) == Offset(n, e) + Offset(m, e)
  {
  }

  /** Moving the tail down over what is removed. */
  lemma BytesRemoved(b: seq<byte>, c: seq<byte>, at: nat, from: nat, to: nat)
    requires at <= from <= to <= |b|
    requires c == Patch(b, at, b[from..to])
    ensures Spliced(b, c, at, [], from, to)
  {
  }

  lemma AfterMove(b: seq<byte>, c: seq<byte>, e: nat, n: nat, p: nat, q: nat, at: nat, from: nat, to: nat)
    requires p <= q <= n && at == Offset(p, e) && from == Offset(q, e) && to == Offset(n, e) && at <= from <= to <= |b|
    requires c == Patch(b, at, b[from..to])
    ensures Offset(n - (q - p), e) <= |c|
    ensures Cut(c, e, n - (q - p)) == Cut(b, e, n)[..p] + Cut(b, e, n)[q..]
  {
    hide Offset, Cut;
    BytesRemoved(b, c, at, from, to);
    CutRemove(b, c, e, n, p, q, n - (q - p));
  }

  function Xor(x: byte, y: byte): byte {
    x ^ y
  }

  lemma XorTrick(x: byte, y: byte)
    ensures Xor(y, Xor(x, y)) == x
    ensures Xor(Xor(x, y), x) == y
    ensures Xor(x, x) == 0
    ensures Xor(0, 0) == 0
  {
  }

  /** The three exclusive-or assignments on one pair of bytes: an exchange, unless both are the same byte. */
  method XorBytes(a: array<byte>, i: nat, j: nat)
    requires i < a.Length && j < a.Length
    modifies a
    ensures i != j ==> a[i] == old(a[j]) && a[j] == old(a[i])
    ensures i == j ==> a[i] == 0
    ensures forall k :: 0 <= k < a.Length && k != i && k != j ==> a[k] == old(a[k])
  {
    XorTrick(a[i], a[j]);
    a[i] := Xor(a[i], a[j]);
    a[j] := Xor(a[j], a[i]);
    a[i] := Xor(a[i], a[j]);
  }

  /** The byte loop of array_swap_elems. */
  method XorSwap(a: array<byte>, p: nat, q: nat, n: nat)
    requires p + n <= a.Length && q + n <= a.Length
    requires p == q || p + n <= q || q + n <= p
    modifies a
    ensures Exchanged(old(a[..]), a[..], p, q, n)
  {
    var left, i, j := n, p, q;
    while left > 0
      invariant 0 <= left <= n && i == p + (n - left) && j == q + (n - left)
      invariant forall k :: p <= k < i ==> a[k] == if p == q then 0 else old(a[k - p + q])
      invariant forall k :: q <= k < j ==> a[k] == if p == q then 0 else old(a[k - q + p])
      invariant forall k :: 0 <= k < a.Length && !(p <= k < i) && !(q <= k < j) ==> a[k] == old(a[k])
    {
      XorBytes(a, i, j);
      left, i, j := left - 1, i + 1, j + 1;
    }
  }

  /** The two blocks of `n` bytes at `p` and `q` exchanged; a block exchanged with itself becomes zero. */
  ghost predicate Exchanged(b: seq<byte>, c: seq<byte>, p: nat, q: nat, n: nat)
    requires p + n <= |b| && q + n <= |b|
  {
    && |c| == |b|
    && (forall k :: p <= k < p + n ==> c[k] == if p == q then 0 else b[k - p + q])
    && (forall k :: q <= k < q + n ==> c[k] == if p == q then 0 else b[k - q + p])
    && (forall k :: 0 <= k < |b| && !(p <= k < p + n) && !(q <= k < q + n) ==> c[k] == b[k])
  }

  lemma ExchangeWithItself(b: seq<byte>, c: seq<byte>, p: nat, n: nat)
    requires p + n <= |b| && Exchanged(b, c, p, p, n)
    ensures |Zeros(n)| == n && c == Patch(b, p, Zeros(n))
  {
  }

  lemma ExchangeIsTwoPatches(b: seq<byte>, c: seq<byte>, p: nat, q: nat, n: nat)
    requires p + n <= |b| && q + n <= |b|
    requires p + n <= q || q + n <= p
    requires Exchanged(b, c, p, q, n)
    ensures c == Patch(Patch(b, p, b[q..q + n]), q, b[p..p + n])
  {
    var x, y := b[p..p + n], b[q..q + n];
    var mid := Patch(b, p, y);
    var d := Patch(mid, q, x);
    forall k | 0 <= k < |b|
      ensures c[k] == d[k]
    {
      PatchIndex(b, p, y, k);
      PatchIndex(mid, q, x, k);
    }
  }

  lemma PatchIndex(s: seq<byte>, at: nat, x: seq<byte>, k: nat)
    requires at + |x| <= |s| && k < |s|
    ensures Patch(s, at, x)[k] == if at <= k < at + |x| then x[k - at] else s[k]
  {
  }

  lemma DistinctSlots(a: nat, b: nat, e: nat)
    requires a != b
    ensures Offset(a, e) + e <= Offset(b, e) || Offset(b, e) + e <= Offset(a, e)
  {
    if a < b {
      OffsetMonotone(a + 1, b, e);
    } else {
      OffsetMonotone(b + 1, a, e);
    }
  }

  lemma AfterSwap(b: seq<byte>, c: seq<byte>, e: nat, n: nat, p: nat, q: nat, at: nat, to: nat)
    requires Offset(n, e) <= |b| && p < n && q < n
    requires at == Offset(p, e) && to == Offset(q, e) && at + e <= |b| && to + e <= |b|
    requires if p == q then at == to else at + e <= to || to + e <= at
    requires Exchanged(b, c, at, to, e) && e > 0
    ensures var elems := Cut(b, e, n);
            Cut(c, e, n) == if p == q then elems[p := Zeros(e)] else elems[p := elems[q]][q := elems[p]]
  {
    hide *;
    ElementBytes(b, e, n, p);
    ElementBytes(b, e, n, q);
    if p == q {
      ExchangeWithItself(b, c, at, e);
      CutReplace(b, c, e, n, p, at, Zeros(e));
    } else {
      var x, y := b[at..at + e], b[to..to + e];
      var mid := Patch(b, at, y);
      ExchangeIsTwoPatches(b, c, at, to, e);
      CutReplace(b, mid, e, n, p, at, y);
      CutReplace(mid, c, e, n, q, to, x);
    }
  }

  lemma SpareFits(cap: nat, size: nat, e: nat, n: nat)
    requires e > 0 && Offset(size, e) <= cap
    requires n <= (cap - Offset(size, e)) / e
    ensures Offset(n, e) <= cap - Offset(size, e) && Offset(size + n, e) <= cap
  {
  }

  lemma CutDrop(b: seq<byte>, e: nat, n: nat, p: nat, at: nat)
    requires Offset(n, e) <= |b| && p <= n && at == Offset(p, e) <= |b|
    ensures Offset(n - p, e) <= |b[at..]|
    ensures Cut(b[at..], e, n - p) == Cut(b, e, n)[p..]
  {
    hide *;
    CutSplit(b, e, p, n - p);
  }

  lemma CutTake(b: seq<byte>, c: seq<byte>, e: nat, n: nat, m: nat)
    requires Offset(n, e) <= |b| && m <= n && |c| == Offset(m, e) && c <= b
    ensures Cut(c, e, m) == Cut(b, e, n)[..m]
  {
    hide *;
    CutSplit(b, e, m, n - m);
    CutIgnoresTail(c, b, e, m);
  }

  lemma SliceOfElements(b: seq<byte>, c: seq<byte>, e: nat, n: nat, p: nat, m: nat, at: nat)
    requires Offset(n, e) <= |b| && p + m <= n && at == Offset(p, e) <= |b|
    requires |c| == Offset(m, e) && c <= b[at..]
    ensures Cut(c, e, m) == Cut(b, e, n)[p..p + m]
  {
    hide *;
    CutDrop(b, e, n, p, at);
    CutTake(b[at..], c, e, n - p, m);
    SliceTwice(Cut(b, e, n), p, m);
  }

  lemma SliceTwice(s: seq<Elem>, p: nat, m: nat)
    requires p + m <= |s|
    ensures s[p..][..m] == s[p..p + m]
  {
  }

  lemma {:induction false} FailedPushStays(s: Arr, elems: seq<Elem>, i: nat, n: nat,
                                           keep: Elem -> bool, allocs: nat -> bool)
    requires i <= n <= |elems| && !PushKept(s, elems, i, keep, allocs).ok
    ensures !PushKept(s, elems, n, keep, allocs).ok
  {
    if i < n {
      FailedPushStays(s, elems, i, n - 1, keep, allocs);
    }
  }
}
