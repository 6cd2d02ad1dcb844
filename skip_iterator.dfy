/** The skip iterator of SkipIterator.java: a wrapper around an iterator of
    integers that looks one element ahead (`nextEl`) and keeps a table of
    pending skips (`skipMap`, value -> how many of its future occurrences to
    drop). The wrapped iterator is modelled by the sequence of elements it
    hands out and the number it has handed out so far. */
module Skipping {

  datatype Option<T> = None | Some(value: T)

  /** What `skip` does: it completes, or it throws because nothing is
      buffered and comparing with the buffer unboxes `null`. */
  datatype Outcome = Done | NullPointer

  /** The value or nothing, as a list of at most one element. */
  function Head(o: Option<int>): (r: seq<int>)
    ensures o.None? <==> r == []
    ensures o.Some? ==> |r| == 1 && r[0] == o.value
  {
    if o.Some? then [o.value] else []
  }

  /** How many future occurrences of `x` the table says to drop. */
  function Count(m: map<int, int>, x: int): int {
    if x in m then m[x] else 0
  }

  /** Every stored count is at least one: an entry is dropped on reaching zero. */
  ghost predicate Positive(m: map<int, int>) {
    forall x :: x in m ==> m[x] >= 1
  }

  /** The table after recording one more pending skip of `x`, counting from
      zero when `x` has no entry. */
  function AddPending(m: map<int, int>, x: int): (r: map<int, int>)
    ensures Count(r, x) == Count(m, x) + 1
    ensures forall y :: y != x ==> Count(r, y) == Count(m, y)
    ensures Positive(m) ==> Positive(r) && x in r
  {
    m[x := Count(m, x) + 1]
  }

  /** The table after one pending skip of `x` is used up: the count drops by
      one and the entry goes once it reads zero. */
  function UsePending(m: map<int, int>, x: int): (r: map<int, int>)
    requires x in m
    ensures Count(r, x) == m[x] - 1
    ensures forall y :: y != x ==> Count(r, y) == Count(m, y)
    ensures Positive(m) ==> Positive(r) && (x in r <==> m[x] > 1)
  {
    var d := m[x := m[x] - 1];
    if d[x] == 0 then d - {x} else d
  }

  /** Where `advance` leaves the wrapped iterator, the table and the buffer. */
  datatype Cursor = Cursor(pos: nat, skips: map<int, int>, next: Option<int>)

  /** The effect of `advance` from position `pos`: each element with a
      pending skip uses one up and is dropped; the first element without one
      is buffered; when the elements run out nothing is buffered. */
  function Scan(elems: seq<int>, pos: nat, skips: map<int, int>): (r: Cursor)
    requires pos <= |elems|
    ensures pos <= r.pos <= |elems|
    ensures r.next.None? ==> r.pos == |elems|
    ensures r.next.Some? ==> pos < r.pos && r.next.value == elems[r.pos - 1] && r.next.value !in r.skips
    ensures Positive(skips) ==> Positive(r.skips)
    decreases |elems| - pos
  {
    if pos == |elems| then Cursor(pos, skips, None)
    else if elems[pos] in skips then Scan(elems, pos + 1, UsePending(skips, elems[pos]))
    else Cursor(pos + 1, skips, Some(elems[pos]))
  }

  /** The end of the elements `Scan` dropped: the buffered one, when there
      is one, is not dropped. */
  function DroppedEnd(r: Cursor): nat {
    if r.next.Some? && r.pos > 0 then r.pos - 1 else r.pos
  }

  /** The values repeated `next` calls hand out from `rest` when no further
      skip is recorded. */
  function Yield(rest: seq<int>, skips: map<int, int>): (r: seq<int>)
    ensures |r| <= |rest|
    decreases |rest|
  {
    if rest == [] then []
    else if rest[0] in skips then Yield(rest[1..], UsePending(skips, rest[0]))
    else [rest[0]] + Yield(rest[1..], skips)
  }

  /** `s` without its first occurrence of `v`. */
  function RemoveFirst(s: seq<int>, v: int): seq<int> {
    if s == [] then []
    else if s[0] == v then s[1..]
    else [s[0]] + RemoveFirst(s[1..], v)
  }

  /** Removing the first `v` takes one `v` out when there is one and
      changes nothing otherwise. */
  lemma {:induction false} RemoveFirstCount(s: seq<int>, v: int)
    ensures v !in s ==> RemoveFirst(s, v) == s
    ensures v in s ==> |RemoveFirst(s, v)| == |s| - 1 && multiset(RemoveFirst(s, v)) == multiset(s) - multiset{v}
  {
    if s != [] {
      assert s == [s[0]] + s[1..];
      if s[0] != v {
        RemoveFirstCount(s[1..], v);
      }
    }
  }

  /** With no skip pending, every element is handed out. */
  lemma {:induction false} YieldNoSkips(rest: seq<int>)
    ensures Yield(rest, map[]) == rest
  {
    if rest != [] {
      YieldNoSkips(rest[1..]);
      assert rest == [rest[0]] + rest[1..];
    }
  }

  /** What `advance` drops and buffers accounts for the first values handed
      out: the buffer followed by what remains after the new position. */
  lemma {:induction false} ScanYield(elems: seq<int>, pos: nat, skips: map<int, int>)
    requires pos <= |elems|
    ensures Yield(elems[pos..], skips) == Head(Scan(elems, pos, skips).next) + Yield(elems[Scan(elems, pos, skips).pos..], Scan(elems, pos, skips).skips)
    decreases |elems| - pos
  {
    if pos < |elems| {
      assert elems[pos..][0] == elems[pos];
      assert elems[pos..][1..] == elems[pos + 1..];
      if elems[pos] in skips {
        ScanYield(elems, pos + 1, UsePending(skips, elems[pos]));
      }
    }
  }

  /** `advance` changes the table only by the skips it uses: each dropped
      element takes exactly one off its own count and no other count
      changes. */
  lemma {:induction false} ScanCounts(elems: seq<int>, pos: nat, skips: map<int, int>, x: int)
    requires pos <= |elems|
    ensures DroppedEnd(Scan(elems, pos, skips)) >= pos
    ensures Count(Scan(elems, pos, skips).skips, x)
         == Count(skips, x) - multiset(elems[pos..DroppedEnd(Scan(elems, pos, skips))])[x]
    decreases |elems| - pos
  {
    var r := Scan(elems, pos, skips);
    if pos < |elems| && elems[pos] in skips {
      var s' := UsePending(skips, elems[pos]);
      ScanCounts(elems, pos + 1, s', x);
      assert Scan(elems, pos + 1, s') == r;
      assert elems[pos..DroppedEnd(r)] == [elems[pos]] + elems[pos + 1..DroppedEnd(r)];
    } else {
      assert elems[pos..DroppedEnd(r)] == [];
    }
  }

  /** Recording a pending skip of `v` removes the first `v` still to come:
      the earlier pending skips of `v` account for the occurrences before
      it, and it accounts for the next. */
  lemma {:induction false} YieldSkipOne(rest: seq<int>, skips: map<int, int>, v: int)
    requires Positive(skips)
    ensures Yield(rest, AddPending(skips, v)) == RemoveFirst(Yield(rest, skips), v)
    decreases |rest|
  {
    if rest != [] {
      var e := rest[0];
      var added := AddPending(skips, v);
      if e == v {
        assert UsePending(added, e) == skips;
        if e in skips {
          var used := UsePending(skips, e);
          YieldSkipOne(rest[1..], used, v);
          assert AddPending(used, v) == skips;
        }
      } else {
        if e in skips {
          var used := UsePending(skips, e);
          YieldSkipOne(rest[1..], used, v);
          assert UsePending(added, e) == AddPending(used, v);
        } else {
          YieldSkipOne(rest[1..], skips, v);
        }
      }
    }
  }

  class SkipIterator {
    /** the elements the wrapped iterator `nit` hands out, in order */
    const elems: seq<int>
    /** how many of them `nit` has handed out */
    var pos: nat
    /** value -> how many of its future occurrences to drop */
    var skipMap: map<int, int>
    /** the element `next` hands out, if any */
    var nextEl: Option<int>

    /** Every pending count is positive, the buffer has no pending skip, and
        an empty buffer means the wrapped iterator is exhausted. */
    ghost predicate Valid()
      reads this
    {
      && pos <= |elems|
      && Positive(skipMap)
      && (nextEl.Some? ==> nextEl.value !in skipMap)
      && (nextEl.None? ==> pos == |elems|)
    }

    /** The values the iterator hands out from now on if no further skip is
        recorded: the buffer, then what the wrapped iterator still holds
        minus the pending skips. */
    ghost function Future(): seq<int>
      reads this
      requires pos <= |elems|
    {
      Head(nextEl) + Yield(elems[pos..], skipMap)
    }

    constructor (it: seq<int>)
      ensures elems == it && Valid()
      ensures Cursor(pos, skipMap, nextEl) == Scan(it, 0, map[])
      ensures Future() == it
    {
      elems := it;
      pos := 0;
      skipMap := map[];
      nextEl := None;
      new;
      ScanYield(it, 0, map[]);
      YieldNoSkips(it);
      assert it[0..] == it;
      Advance();
    }

    method Advance()
      requires pos <= |elems|
      modifies this
      ensures Cursor(pos, skipMap, nextEl) == Scan(elems, old(pos), old(skipMap))
    {
      nextEl := None;
      while pos < |elems|
        invariant old(pos) <= pos <= |elems|
        invariant nextEl == None
        invariant Scan(elems, pos, skipMap) == Scan(elems, old(pos), old(skipMap))
        decreases |elems| - pos
      {
        var el := elems[pos];
        pos := pos + 1;
        if el in skipMap {
          skipMap := skipMap[el := skipMap[el] - 1];
          if skipMap[el] == 0 {
            skipMap := skipMap - {el};
          }
        } else {
          nextEl := Some(el);
          assert Scan(elems, pos - 1, skipMap) == Cursor(pos, skipMap, nextEl);
          break;
        }
      }
    }

    /** Whether an element is buffered, that is, whether any value is still
        to come. */
    method HasNext() returns (b: bool)
      requires Valid()
      ensures b <==> nextEl.Some?
      ensures b <==> Future() != []
    {
      b := nextEl.Some?;
    }

    /** Hands out the buffered element, or nothing when none is buffered,
        and advances: the first value still to come is handed out and
        removed. */
    method Next() returns (r: Option<int>)
      requires Valid()
      modifies this
      ensures Valid()
      ensures r == old(nextEl)
      ensures Cursor(pos, skipMap, nextEl) == Scan(elems, old(pos), old(skipMap))
      ensures old(Future()) == Head(r) + Future()
      ensures old(Future()) == [] ==> r == None && Future() == []
      ensures old(Future()) != [] ==> r == Some(old(Future())[0]) && Future() == old(Future())[1..]
    {
      r := nextEl;
      ScanYield(elems, pos, skipMap);
      Advance();
    }

    /** Skips the next occurrence of `val`: the buffered element when it is
        `val`, else a later one, recorded as a pending skip. With nothing
        buffered the comparison throws and nothing changes. */
    method Skip(val: int) returns (out: Outcome)
      requires Valid()
      modifies this
      ensures Valid()
      ensures old(nextEl).None? ==> out == NullPointer && unchanged(this)
      ensures old(nextEl) == Some(val) ==> out == Done && Cursor(pos, skipMap, nextEl) == Scan(elems, old(pos), old(skipMap))
      ensures old(nextEl).Some? && old(nextEl) != Some(val) ==>
                out == Done && skipMap == AddPending(old(skipMap), val) && pos == old(pos) && nextEl == old(nextEl)
      ensures old(Future()) == [] ==> out == NullPointer && Future() == []
      ensures old(Future()) != [] ==> out == Done && Future() == RemoveFirst(old(Future()), val)
    {
      if nextEl.None? {
        out := NullPointer;
        return;
      }
      out := Done;
      if val == nextEl.value {
        ScanYield(elems, pos, skipMap);
        Advance();
      } else {
        YieldSkipOne(elems[pos..], skipMap, val);
        skipMap := skipMap[val := Count(skipMap, val) + 1];
      }
    }
  }

  /** A value the example prints: a `hasNext` answer or a `next` result. */
  datatype Printed = Flag(bool) | Element(Option<int>)

  /** The example run over 5,6,7,5,6,8,9,5,5,6,8 and what it prints. */
  method ExampleRun() returns (out: seq<Printed>)
    ensures out == [Flag(true), Element(Some(6)), Element(Some(7)), Element(Some(6)), Element(Some(5)),
                    Element(Some(5)), Element(Some(6)), Flag(true), Element(Some(8)), Flag(false)]
  {
    var itr := new SkipIterator([5, 6, 7, 5, 6, 8, 9, 5, 5, 6, 8]);
    var b1 := ExampleSkipFirst(itr);
    var e1 := ExampleTakeFirst(itr);
    ExampleSkipAhead(itr);
    var e2, e3 := ExampleTakeTwo(itr);
    var e4, e5, e6, b2, e7, b3 := ExampleClosing(itr);
    out := [Flag(b1), Element(e1), Element(e2), Element(e3), Element(e4),
            Element(e5), Element(e6), Flag(b2), Element(e7), Flag(b3)];
  }

  /** The example's opening `hasNext` and the skip of the buffered `5`. */
  method ExampleSkipFirst(itr: SkipIterator) returns (b1: bool)
    requires itr.Valid() && itr.Future() == [5, 6, 7, 5, 6, 8, 9, 5, 5, 6, 8]
    modifies itr
    ensures itr.Valid() && itr.Future() == [6, 7, 5, 6, 8, 9, 5, 5, 6, 8]
    ensures b1
  {
    ghost var f0 := itr.Future();
    b1 := itr.HasNext();
    var o := itr.Skip(5);
    assert RemoveFirst(f0, 5) == f0[1..];
  }

  /** The example's first `next`. */
  method ExampleTakeFirst(itr: SkipIterator) returns (e1: Option<int>)
    requires itr.Valid() && itr.Future() == [6, 7, 5, 6, 8, 9, 5, 5, 6, 8]
    modifies itr
    ensures itr.Valid() && itr.Future() == [7, 5, 6, 8, 9, 5, 5, 6, 8]
    ensures e1 == Some(6)
  {
    e1 := itr.Next();
  }

  /** Removing the first `5` from the example's future after its first
      `next` takes out the `5` behind the head. */
  lemma SkipBehindHead(f: seq<int>)
    requires f == [7, 5, 6, 8, 9, 5, 5, 6, 8]
    ensures RemoveFirst(f, 5) == [7, 6, 8, 9, 5, 5, 6, 8]
  {
    assert f[1..] == [5, 6, 8, 9, 5, 5, 6, 8];
    assert RemoveFirst(f[1..], 5) == [6, 8, 9, 5, 5, 6, 8];
  }

  /** The example's skip of a `5` still to come. */
  method ExampleSkipAhead(itr: SkipIterator)
    requires itr.Valid() && itr.Future() == [7, 5, 6, 8, 9, 5, 5, 6, 8]
    modifies itr
    ensures itr.Valid() && itr.Future() == [7, 6, 8, 9, 5, 5, 6, 8]
  {
    ghost var f := itr.Future();
    var o := itr.Skip(5);
    SkipBehindHead(f);
  }

  /** The example's second and third `next`. */
  method ExampleTakeTwo(itr: SkipIterator) returns (e2: Option<int>, e3: Option<int>)
    requires itr.Valid() && itr.Future() == [7, 6, 8, 9, 5, 5, 6, 8]
    modifies itr
    ensures itr.Valid() && itr.Future() == [8, 9, 5, 5, 6, 8]
    ensures e2 == Some(7) && e3 == Some(6)
  {
    e2 := itr.Next();
    e3 := itr.Next();
  }

  /** The example from its two skips to the end. */
  method ExampleClosing(itr: SkipIterator) returns (e4: Option<int>, e5: Option<int>, e6: Option<int>, b2: bool, e7: Option<int>, b3: bool)
    requires itr.Valid() && itr.Future() == [8, 9, 5, 5, 6, 8]
    modifies itr
    ensures e4 == Some(5) && e5 == Some(5) && e6 == Some(6) && b2 && e7 == Some(8) && !b3
  {
    ghost var f4 := itr.Future();
    var o := itr.Skip(8);
    assert RemoveFirst(f4, 8) == f4[1..];
    ghost var f5 := itr.Future();
    assert f5 == [9, 5, 5, 6, 8];
    o := itr.Skip(9);
    assert RemoveFirst(f5, 9) == f5[1..];
    ghost var f6 := itr.Future();
    assert f6 == [5, 5, 6, 8];
    e4 := itr.Next();
    e5 := itr.Next();
    e6 := itr.Next();
    b2 := itr.HasNext();
    e7 := itr.Next();
    b3 := itr.HasNext();
  }
}
