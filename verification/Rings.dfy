/**
 Queues in circular arrays: `Fifo`, which grows (src/utils/fifo.h), and the ones of fixed size,
 `ConstantSizedFifo` (src/utils/constant_fifo.h) and the array in `NamedSite` (src/fetch/site.cxx:115-133).
 Modules `Scheduler` and `Crawler` use the sequences that these are shown to be.
 */
module Rings {
  /** The `len` entries of the array from `out` on, around its end. */
  function Ring<T>(tab: seq<T>, out: nat, len: nat): (r: seq<T>)
    requires out < |tab| && len <= |tab|
    ensures |r| == len
  {
    if out + len <= |tab| then tab[out..out + len] else tab[out..] + tab[..out + len - |tab|]
  }

  /** How many entries there are from `out` to `inn`, around the end. */
  function Distance(out: nat, inn: nat, size: nat): (n: nat)
    requires out < size && inn < size
    ensures n < size && (n == 0 <==> inn == out)
  {
    if inn >= out then inn - out else inn + size - out
  }

  lemma DistanceIs(out: nat, inn: nat, size: nat)
    requires out < size && inn < size
    ensures (inn + size - out) % size == Distance(out, inn, size)
  {
    var n := Distance(out, inn, size);
    if inn >= out {
      assert inn + size - out == n + size;
      Around(n, size);
    } else {
      Around(n, size);
    }
  }

  lemma Around(n: nat, size: nat)
    requires n < size
    ensures n % size == n && (n + size) % size == n
  {
    assert (n + size) / size == 1 + n / size;
  }

  lemma Next(i: nat, size: nat)
    requires i < size
    ensures (i + 1) % size == if i + 1 == size then 0 else i + 1
  {
    if i + 1 < size {
      Around(i + 1, size);
    } else {
      Around(0, size);
    }
  }

  lemma Previous(i: nat, size: nat)
    requires i < size
    ensures (i + size - 1) % size == if i == 0 then size - 1 else i - 1
  {
    if i == 0 {
      Around(size - 1, size);
    } else {
      Around(i - 1, size);
    }
  }

  /** One more at the end. */
  lemma RingPut<T>(tab: seq<T>, out: nat, inn: nat, x: T)
    requires out < |tab| && inn < |tab|
    ensures Ring(tab[inn := x], out, Distance(out, inn, |tab|) + 1) == Ring(tab, out, Distance(out, inn, |tab|)) + [x]
  {
  }

  /** One less at the front. */
  lemma RingGet<T>(tab: seq<T>, out: nat, len: nat)
    requires out < |tab| && 0 < len <= |tab|
    ensures Ring(tab, out, len)[0] == tab[out]
    ensures Ring(tab, if out + 1 == |tab| then 0 else out + 1, len - 1) == Ring(tab, out, len)[1..]
  {
  }

  /** One more at the front. */
  lemma RingRePut<T>(tab: seq<T>, out: nat, len: nat, x: T)
    requires out < |tab| && len < |tab|
    ensures var o := if out == 0 then |tab| - 1 else out - 1;
            Ring(tab[o := x], o, len + 1) == [x] + Ring(tab, out, len)
  {
  }

  /** What was before `out` goes behind the end. */
  lemma RingGrown<T>(tab: seq<T>, more: seq<T>, out: nat)
    requires out < |tab| && |more| == 2 * |tab|
    requires forall k :: out <= k < |tab| ==> more[k] == tab[k]
    requires forall k :: 0 <= k < out ==> more[k + |tab|] == tab[k]
    ensures Ring(more, out, |tab|) == Ring(tab, out, |tab|) && Distance(out, out + |tab|, |more|) == |tab|
  {
    assert forall k :: |tab| <= k < out + |tab| ==> more[k] == tab[k - |tab|];
  }

  // ----- rings of fixed size -----

  /** One entry always stays free: `put` asserts that the array did not become full, which would make it
      look empty. */
  class FixedRing<T(0)> {
    const tab: array<T>
    var inn: nat
    var out: nat

    ghost predicate Valid()
      reads this
    {
      inn < tab.Length && out < tab.Length
    }

    ghost function Contents(): (s: seq<T>)
      requires Valid()
      reads this, tab
      ensures |s| == Distance(out, inn, tab.Length)
    {
      Ring(tab[..], out, Distance(out, inn, tab.Length))
    }

    constructor (size: nat)
      requires size > 0
      ensures Valid() && fresh(tab) && tab.Length == size && Contents() == []
    {
      tab := new T[size];
      inn, out := 0, 0;
    }

    /** `overflows` is the failure of the assertion: then, and only then, the queue was as full as it may
        be. */
    method Put(x: T) returns (overflows: bool)
      requires Valid()
      modifies this`inn, tab
      ensures Valid() && overflows == (|old(Contents())| == tab.Length - 1)
      ensures if overflows then Contents() == [] else Contents() == old(Contents()) + [x]
    {
      RingPut(tab[..], out, inn, x);
      ghost var was := tab[..];
      tab[inn] := x;
      assert tab[..] == was[inn := x];
      Next(inn, tab.Length);
      inn := (inn + 1) % tab.Length;
      overflows := inn == out;
    }

    /** `getInFifo`, and `get` where it does not wait. */
    method Get() returns (x: T)
      requires Valid() && Contents() != []
      modifies this`out
      ensures Valid() && [x] + Contents() == old(Contents())
    {
      RingGet(tab[..], out, Distance(out, inn, tab.Length));
      assert inn != out;
      x := tab[out];
      Next(out, tab.Length);
      out := (out + 1) % tab.Length;
    }

    method Length() returns (n: nat)
      requires Valid()
      ensures n == |Contents()|
    {
      DistanceIs(out, inn, tab.Length);
      n := (inn + tab.Length - out) % tab.Length;
    }
  }

  // ----- the queue that grows -----

  class Fifo<T(0)> {
    var tab: array<T>
    var size: nat
    var inn: nat
    var out: nat

    ghost predicate Valid()
      reads this
    {
      size == tab.Length && inn < size && out < size
    }

    ghost function Contents(): (s: seq<T>)
      requires Valid()
      reads this, tab
      ensures |s| == Distance(out, inn, size)
    {
      Ring(tab[..], out, Distance(out, inn, size))
    }

    constructor (size: nat)
      requires size > 0
      ensures Valid() && fresh(tab) && this.size == size && Contents() == []
    {
      tab := new T[size];
      this.size, inn, out := size, 0, 0;
    }

    /** An array twice as large: what was before `out` goes behind what was behind it. */
    method Grow()
      requires size == tab.Length && inn < size && out == inn
      modifies this
      ensures Valid() && size == 2 * old(size) && fresh(tab) && Contents() == old(Ring(tab[..], out, size))
    {
      var tmp := new T[2 * size];
      for i := out to size
        modifies tmp
        invariant forall k :: out <= k < i ==> tmp[k] == tab[k]
      {
        tmp[i] := tab[i];
      }
      for i := 0 to inn
        modifies tmp
        invariant forall k :: out <= k < size ==> tmp[k] == tab[k]
        invariant forall k :: 0 <= k < i ==> tmp[k + size] == tab[k]
      {
        tmp[i + size] := tab[i];
      }
      RingGrown(tab[..], tmp[..], out);
      inn := inn + size;
      size := size * 2;
      tab := tmp;
    }

    method Put(x: T)
      requires Valid()
      modifies this, tab
      ensures Valid() && Contents() == old(Contents()) + [x] && (tab == old(tab) || fresh(tab))
    {
      RingPut(tab[..], out, inn, x);
      ghost var was := tab[..];
      tab[inn] := x;
      assert tab[..] == was[inn := x];
      Next(inn, size);
      inn := (inn + 1) % size;
      if inn == out {
        Grow();
      }
    }

    method Get() returns (x: T)
      requires Valid() && Contents() != []
      modifies this`out
      ensures Valid() && [x] + Contents() == old(Contents())
    {
      RingGet(tab[..], out, Distance(out, inn, size));
      assert inn != out;
      x := tab[out];
      Next(out, size);
      out := (out + 1) % size;
    }

    /** Puts back what was just taken; there is room for it, then. */
    method RePut(x: T)
      requires Valid() && |Contents()| + 1 < size
      modifies this`out, tab
      ensures Valid() && Contents() == [x] + old(Contents())
    {
      RingRePut(tab[..], out, Distance(out, inn, size), x);
      ghost var was := tab[..];
      Previous(out, size);
      out := (out + size - 1) % size;
      tab[out] := x;
      assert tab[..] == was[out := x];
    }

    method Length() returns (n: nat)
      requires Valid()
      ensures n == |Contents()|
    {
      DistanceIs(out, inn, size);
      n := (inn + size - out) % size;
    }
  }

  /** What is taken can be put back at once: the queue is as it was, whatever its size is. */
  method TakeAndPutBack<T(0)>(q: Fifo<T>)
    requires q.Valid() && q.Contents() != []
    modifies q, q.tab
    ensures q.Valid() && q.Contents() == old(q.Contents())
  {
    var x := q.Get();
    q.RePut(x);
  }
}
