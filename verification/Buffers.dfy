/** Owned heap buffers. The heap records, for the proofs, which blocks are allocated and which have
    been released: releasing needs a live block, and following a pointer needs one that has not
    been released. */
module Buffers {
  import opened Wide

  class Heap {
    ghost var live: set<object>
    ghost var freed: set<object>

    constructor ()
      ensures live == {} && freed == {}
    {
      live, freed := {}, {};
    }

    method Release(block: object)
      requires block in live
      modifies this
      ensures live == old(live) - {block}
      ensures freed == old(freed) + {block}
    {
      live := live - {block};
      freed := freed + {block};
    }
  }

  /** `p` may be followed now, and reads as the C string `t`. */
  ghost predicate Spells(heap: Heap, p: LPCWSTR, t: WStr)
    reads heap`freed, if p.Ptr? then {p.block} else {}
  {
    p.Ptr? && p.block !in heap.freed && IsCString(p) && CText(p) == t
  }

  /** A pointer that may be null: what it spells, if anything. */
  ghost predicate MaySpell(heap: Heap, p: LPCWSTR, t: Option<WStr>)
    reads heap`freed, if p.Ptr? then {p.block} else {}
  {
    match t
    case None => p == Null
    case Some(text) => Spells(heap, p, text)
  }

  /** The characters of a C string, its NUL included. */
  lemma SpelledAt(heap: Heap, p: LPCWSTR, t: WStr, k: nat)
    requires Spells(heap, p, t) && k <= |t|
    ensures p.Ptr? && p.off + |t| < p.block.Length
    ensures p.block[p.off + k] == if k < |t| then t[k] else NUL
    ensures k < |t| ==> t[k] != NUL
  {
    assert k < |t| ==> p.block[p.off..p.off + |t|][k] == t[k];
  }

  /** A string literal: static storage, never released. */
  method Literal(heap: Heap, text: WStr) returns (p: LPCWSTR)
    requires NUL !in text
    ensures p.Ptr? && fresh(p.block) && Spells(heap, p, text)
  {
    var block := new WChar[|text| + 1](i requires 0 <= i <= |text| => if i < |text| then text[i] else NUL);
    p := Ptr(block, 0);
    assert block[..][..|text|] == text;
    assert block[p.off..] == block[..] && block[..][|text|] == NUL;
    ToNulIs(block[..], |text|);
  }

  class HeapBuffer<T(0)> {
    const heap: Heap
    var p: array?<T>
    var length: nat

    ghost predicate Valid()
      reads this, heap
    {
      && (p == null ==> length == 0)
      && (p != null ==> p.Length == length && p in heap.live && p !in heap.freed)
    }

    /** The block this buffer must still release, if any. */
    ghost function Owned(): set<object>
      reads this
    {
      if p == null then {} else {p}
    }

    constructor (heap: Heap)
      ensures this.heap == heap && p == null && length == 0 && Valid()
    {
      this.heap := heap;
      p, length := null, 0;
    }

    /** What others release does not disturb the buffer. */
    twostate lemma StaysValid(released: set<object>)
      requires old(Valid()) && unchanged(this) && Owned() !! released
      requires old(heap.live) - released <= heap.live && heap.freed <= old(heap.freed) + released
      ensures Valid()
    {}

    /** Also the destructor: releases the block, once. */
    method Clear()
      requires Valid()
      modifies this, heap
      ensures Valid() && p == null && length == 0
      ensures heap.live == old(heap.live) - old(Owned())
      ensures heap.freed == old(heap.freed) + old(Owned())
    {
      if p != null {
        heap.Release(p);
        p := null;
      }
      length := 0;
    }

    /** Replaces the block by a fresh one of `n` elements; if there is no memory for it, nothing
        changes. */
    method Alloc(n: nat, memory: bool) returns (ok: bool)
      requires Valid()
      modifies this, heap
      ensures Valid() && ok == memory
      ensures !ok ==> p == old(p) && length == old(length)
      ensures !ok ==> heap.live == old(heap.live) && heap.freed == old(heap.freed)
      ensures ok ==> p != null && fresh(p) && length == n
      ensures ok ==> heap.live == old(heap.live) - old(Owned()) + Owned()
      ensures ok ==> heap.freed == old(heap.freed) + old(Owned())
    {
      if !memory {
        return false;
      }
      var block := new T[n];
      Clear();
      p := block;
      length := n;
      heap.live := heap.live + {p};
      ok := true;
    }
  }

  /** Two exchanges of owned blocks, `a` for `a'` and `b` for `b'`, seen as one. */
  lemma ExchangeBoth(start: set<object>, a: set<object>, a': set<object>, b: set<object>, b': set<object>)
    requires a !! b && a' !! b && a !! b'
    ensures start - a + a' - b + b' == start - (a + b) + (a' + b')
    ensures start + (a - a') + (b - b') == start + ((a + b) - (a' + b'))
    ensures b == b' && b <= start ==> start - a + a' == start - (a + b) + (a' + b')
  {}

  /** Two destructors at the end of a scope. */
  method ClearBoth<T(0), U(0)>(a: HeapBuffer<T>, b: HeapBuffer<U>)
    requires a.Valid() && b.Valid() && a.heap == b.heap && a as object != b && a.Owned() !! b.Owned()
    modifies a, b, a.heap
    ensures a.heap.live == old(a.heap.live) - old(a.Owned()) - old(b.Owned())
    ensures a.heap.freed == old(a.heap.freed) + old(a.Owned()) + old(b.Owned())
  {
    a.Clear();
    b.Clear();
  }

  ghost predicate SpellSeq(heap: Heap, pointers: seq<LPCWSTR>, texts: seq<WStr>)
    reads heap`freed, set i | 0 <= i < |pointers| && pointers[i].Ptr? :: pointers[i].block
  {
    |pointers| == |texts| && forall i :: 0 <= i < |texts| ==> Spells(heap, pointers[i], texts[i])
  }

  /** Every argument pointer may be followed, spells its text, and lies outside `dest`. */
  ghost predicate SpellAll(heap: Heap, args: HeapBuffer<LPCWSTR>, texts: seq<WStr>, dest: array?<WChar>)
    reads heap`freed, args, args.p
    reads if args.p == null then {} else set i | 0 <= i < args.p.Length && args.p[i].Ptr? :: args.p[i].block
  {
    && |texts| == args.length
    && (args.p == null ==> args.length == 0)
    && (args.p != null ==> args.p.Length == args.length)
    && forall i :: 0 <= i < args.length ==> Spells(heap, args.p[i], texts[i]) && args.p[i].block != dest
  }
}
