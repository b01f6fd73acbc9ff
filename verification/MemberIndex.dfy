/**
  How the parser finds an object's members by key while it reads them. Members
  that a later duplicate replaced are holes in the list until the object closes.
 */
module MemberIndex {
  import opened Ascii
  import opened Tree
  import opened Syntax
  import opened WellFormed

  /** The member count from which keys are looked up in a map. */
  const MEMBER_INDEX_MIN: nat := 16

  type Slots = seq<Option<Node>>

  function Kept(slot: Option<Node>): seq<Node> { if slot.Some? then [slot.value] else [] }

  /** The list without its holes. */
  function Live(slots: Slots): seq<Node> {
    if slots == [] then [] else Kept(slots[0]) + Live(slots[1..])
  }

  predicate LiveAt(slots: Slots, i: int, key: Bytes) {
    0 <= i < |slots| && slots[i].Some? && slots[i].value.key == key
  }

  ghost predicate DistinctSlots(slots: Slots) {
    forall i, j, key :: LiveAt(slots, i, key) && LiveAt(slots, j, key) ==> i == j
  }

  ghost predicate Absent(slots: Slots, key: Bytes) { forall j :: !LiveAt(slots, j, key) }

  /** What a scan of the list finds: the place of the live member, or -1. */
  ghost predicate FoundAt(slots: Slots, key: Bytes, i: int) {
    LiveAt(slots, i, key) || (i == -1 && Absent(slots, key))
  }

  /** after is slots with n appended and any earlier member of its key cleared. */
  ghost predicate Placed(slots: Slots, n: Node, after: Slots) {
    |after| == |slots| + 1 && after[|slots|] == Some(n) && DistinctSlots(after)
    && var kept := after[..|slots|];
    DistinctSlots(kept) && Absent(kept, n.key) && Live(kept) == Without(Live(slots), n.key)
  }

  class MemberIndex {
    var built: bool
    var byKey: map<Bytes, nat>

    constructor ()
      ensures !built
    {
      built, byKey := false, map[];
    }

    /** The map, once built, finds what a scan would find. */
    ghost predicate Indexes(slots: Slots)
      reads this
    {
      built ==> forall key :: FoundAt(slots, key, if key in byKey then byKey[key] else -1)
    }

    method Find(slots: Slots, key: Bytes) returns (i: int)
      requires Indexes(slots)
      ensures FoundAt(slots, key, i)
    {
      if built {
        assert FoundAt(slots, key, if key in byKey then byKey[key] else -1);
        return if key in byKey then byKey[key] else -1;
      }
      for k := 0 to |slots|
        invariant forall j :: 0 <= j < k ==> !LiveAt(slots, j, key)
      {
        if slots[k].Some? && slots[k].value.key == key {
          return k;
        }
      }
      return -1;
    }

    /** Appends a member; an earlier one with its key, at i, becomes a hole. */
    method Place(slots: Slots, n: Node, i: int) returns (after: Slots)
      requires Indexes(slots) && DistinctSlots(slots) && FoundAt(slots, n.key, i)
      modifies this
      ensures Indexes(after) && Placed(slots, n, after)
    {
      hide Live, Without, HasKey, DistinctSlots;
      var kept := slots;
      if i >= 0 {
        ClearIsWithout(slots, i, n.key);
        kept := slots[i := None];
      } else {
        AbsentLive(slots, n.key);
        WithoutAbsent(Live(slots), n.key);
      }
      AppendIsPut(kept, n, Live(slots));
      after := kept + [Some(n)];
      assert after[..|slots|] == kept;
      Add(slots, i, after);
    }

    /** Gives the member placed last its comments. */
    method Rewrite(before: Slots, slots: Slots, n: Node, m: Node) returns (after: Slots)
      requires Indexes(slots) && Placed(before, n, slots) && m.key == n.key
      ensures Indexes(after) && DistinctSlots(after) && Live(after) == Put(Live(before), m, true)
    {
      hide Live, Without, DistinctSlots;
      var last := |slots| - 1;
      ghost var kept := slots[..last];
      assert slots == kept + [Some(n)];
      UpdateLast(kept, n, m);
      AppendIsPut(kept, m, Live(before));
      after := slots[last := Some(m)];
    }

    /** Records the member just appended; `before` is the list without it, in
        which its key may have been cleared since the last call. */
    method Add(ghost before: Slots, ghost cleared: int, slots: Slots)
      requires |slots| > 0 && slots[|slots| - 1].Some? && DistinctSlots(slots)
      requires Indexes(before) && |before| == |slots| - 1
      requires forall j :: 0 <= j < |before| && j != cleared ==> slots[j] == before[j]
      requires 0 <= cleared < |before| ==> slots[cleared] == None && LiveAt(before, cleared, slots[|slots| - 1].value.key)
      modifies this
      ensures Indexes(slots)
    {
      var last := |slots| - 1;
      var key := slots[last].value.key;
      assert LiveAt(slots, last, key);
      if built {
        ghost var was := byKey;
        byKey := byKey[key := last];
        forall k
          ensures FoundAt(slots, k, if k in byKey then byKey[k] else -1)
        {
          assert FoundAt(before, k, if k in was then was[k] else -1);
          if k != key {
            SameElsewhere(before, cleared, slots, k, if k in was then was[k] else -1);
          }
        }
      } else if |slots| >= MEMBER_INDEX_MIN {
        built := true;
        byKey := map[];
        for i := 0 to |slots|
          invariant built
          invariant forall k :: k in byKey ==> LiveAt(slots, byKey[k], k)
          invariant forall j, k :: 0 <= j < i && LiveAt(slots, j, k) ==> k in byKey
        {
          if slots[i].Some? {
            assert LiveAt(slots, i, slots[i].value.key);
            byKey := byKey[slots[i].value.key := i];
          }
        }
      }
    }
  }

  lemma NoSlots()
    ensures Live([]) == [] && DistinctSlots([])
  {
  }

  lemma SameElsewhere(before: Slots, cleared: int, slots: Slots, key: Bytes, i: int)
    requires |slots| > 0 && slots[|slots| - 1].Some? && |before| == |slots| - 1
    requires forall j :: 0 <= j < |before| && j != cleared ==> slots[j] == before[j]
    requires 0 <= cleared < |before| ==> slots[cleared] == None && LiveAt(before, cleared, slots[|slots| - 1].value.key)
    requires key != slots[|slots| - 1].value.key && FoundAt(before, key, i)
    ensures FoundAt(slots, key, i)
  {
    if i == -1 {
      forall j
        ensures !LiveAt(slots, j, key)
      {
        assert !LiveAt(before, j, key);
      }
    }
  }

  // The list with holes stands for the children so far.

  lemma {:induction false} LiveConcat(a: Slots, b: Slots)
    ensures Live(a + b) == Live(a) + Live(b)
  {
    hide Kept;
    if a == [] {
      assert a + b == b;
      assert Live(a) == [];
    } else {
      LiveConcat(a[1..], b);
      assert (a + b)[0] == a[0] && (a + b)[1..] == a[1..] + b;
    }
  }

  lemma LiveOne(slot: Option<Node>)
    ensures Live([slot]) == Kept(slot)
  {
    assert [slot][1..] == [];
  }

  lemma {:induction false} AbsentLive(slots: Slots, key: Bytes)
    requires Absent(slots, key)
    ensures !HasKey(Live(slots), key)
  {
    if slots == [] {
    } else {
      var rest := slots[1..];
      forall j
        ensures !LiveAt(rest, j, key)
      {
        assert !LiveAt(slots, j + 1, key);
      }
      AbsentLive(rest, key);
      assert !LiveAt(slots, 0, key);
      HasKeyConcat(Kept(slots[0]), Live(rest), key);
    }
  }

  lemma {:induction false} PresentLive(slots: Slots, i: nat, key: Bytes)
    requires LiveAt(slots, i, key)
    ensures HasKey(Live(slots), key)
  {
    HasKeyConcat(Kept(slots[0]), Live(slots[1..]), key);
    if i == 0 {
      assert Kept(slots[0])[0].key == key;
    } else {
      PresentLive(slots[1..], i - 1, key);
    }
  }

  lemma HasKeyConcat(a: seq<Node>, b: seq<Node>, key: Bytes)
    ensures HasKey(a + b, key) <==> HasKey(a, key) || HasKey(b, key)
  {
    if HasKey(a, key) {
      var i :| 0 <= i < |a| && a[i].key == key;
      assert (a + b)[i].key == key;
    }
    if HasKey(b, key) {
      var i :| 0 <= i < |b| && b[i].key == key;
      assert (a + b)[|a| + i].key == key;
    }
  }

  /** A search answers whether the children have the key. */
  lemma FoundIsHasKey(slots: Slots, key: Bytes, i: int)
    requires FoundAt(slots, key, i)
    ensures HasKey(Live(slots), key) <==> i >= 0
  {
    hide Live, HasKey;
    if i >= 0 {
      PresentLive(slots, i, key);
    } else {
      AbsentLive(slots, key);
    }
  }

  lemma {:induction false} WithoutConcat(a: seq<Node>, b: seq<Node>, key: Bytes)
    ensures Without(a + b, key) == Without(a, key) + Without(b, key)
  {
    if a == [] {
      assert a + b == b;
      assert Without(a, key) == [];
    } else {
      var first := if a[0].key == key then [] else [a[0]];
      calc {
        Without(a + b, key);
        { assert (a + b)[0] == a[0] && (a + b)[1..] == a[1..] + b; }
        first + Without(a[1..] + b, key);
        { WithoutConcat(a[1..], b, key); }
        first + (Without(a[1..], key) + Without(b, key));
        Without(a, key) + Without(b, key);
      }
    }
  }

  lemma WithoutOne(n: Node)
    ensures Without([n], n.key) == []
  {
    assert [n][1..] == [];
  }

  /** Clearing a slot takes its member out of the children. */
  lemma ClearIsWithout(slots: Slots, i: nat, key: Bytes)
    requires LiveAt(slots, i, key) && DistinctSlots(slots)
    ensures Live(slots[i := None]) == Without(Live(slots), key)
    ensures DistinctSlots(slots[i := None]) && Absent(slots[i := None], key)
  {
    var a, n, b := slots[..i], slots[i], slots[i + 1..];
    assert Absent(a, key) by {
      assert forall j :: LiveAt(a, j, key) ==> LiveAt(slots, j, key);
    }
    assert Absent(b, key) by {
      forall j
        ensures !LiveAt(b, j, key)
      {
        assert LiveAt(b, j, key) ==> LiveAt(slots, i + 1 + j, key);
      }
    }
    assert slots == a + [n] + b;
    assert slots[i := None] == a + [None] + b;
    var cut := slots[i := None];
    forall j, k | LiveAt(cut, j, k)
      ensures LiveAt(slots, j, k) && k != key
    {
      assert LiveAt(slots, j, k) && j != i;
    }
    assert DistinctSlots(cut);
    assert Absent(cut, key);
    assert n == Some(n.value) && n.value.key == key;
    LiveSplit(a, n, b);
    LiveSplit(a, None, b);
    AbsentLive(a, key);
    AbsentLive(b, key);
    CutMember(Live(a), n.value, Live(b));
  }

  lemma LiveSplit(a: Slots, slot: Option<Node>, b: Slots)
    ensures Live(a + [slot] + b) == Live(a) + Kept(slot) + Live(b)
  {
    hide Live, Kept;
    LiveConcat(a + [slot], b);
    LiveConcat(a, [slot]);
    LiveOne(slot);
  }

  lemma CutMember(a: seq<Node>, n: Node, b: seq<Node>)
    requires !HasKey(a, n.key) && !HasKey(b, n.key)
    ensures Without(a + [n] + b, n.key) == a + [] + b
  {
    hide Without, HasKey;
    WithoutConcat(a + [n], b, n.key);
    WithoutConcat(a, [n], n.key);
    WithoutOne(n);
    WithoutAbsent(a, n.key);
    WithoutAbsent(b, n.key);
  }

  /** An appended member is put among the children. */
  lemma AppendIsPut(slots: Slots, n: Node, was: seq<Node>)
    requires DistinctSlots(slots) && Absent(slots, n.key) && Live(slots) == Without(was, n.key)
    ensures Live(slots + [Some(n)]) == Put(was, n, true) && DistinctSlots(slots + [Some(n)])
  {
    hide Live, Without;
    LiveConcat(slots, [Some(n)]);
    LiveOne(Some(n));
    var all := slots + [Some(n)];
    forall i, j, key | LiveAt(all, i, key) && LiveAt(all, j, key)
      ensures i == j
    {
      assert i < |slots| ==> LiveAt(slots, i, key);
      assert j < |slots| ==> LiveAt(slots, j, key);
    }
  }

  /** Rewriting the last member without changing its key. */
  lemma UpdateLast(slots: Slots, n: Node, m: Node)
    requires m.key == n.key && DistinctSlots(slots + [Some(n)])
    ensures (slots + [Some(n)])[|slots| := Some(m)] == slots + [Some(m)]
    ensures DistinctSlots(slots + [Some(m)])
    ensures forall key, i :: FoundAt(slots + [Some(n)], key, i) <==> FoundAt(slots + [Some(m)], key, i)
  {
    var a, b := slots + [Some(n)], slots + [Some(m)];
    assert forall i, key :: LiveAt(a, i, key) <==> LiveAt(b, i, key);
  }
}
