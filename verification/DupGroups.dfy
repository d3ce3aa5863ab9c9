/** The hand-maintained list of dup groups, dup_data (km/km_filesys.c).

    A group lists file descriptors that are dups of each other, in the order they were made.
 */
module DupGroups {
  import opened Sequences

  type Groups = seq<seq<int>>

  /** Both descriptors are in one group. */
  predicate Together(gs: Groups, a: int, b: int) {
    exists k :: 0 <= k < |gs| && a in gs[k] && b in gs[k]
  }

  predicate Grouped(gs: Groups, a: int) {
    exists k :: 0 <= k < |gs| && a in gs[k]
  }

  predicate Disjoint(g: seq<int>, h: seq<int>) {
    forall a :: a in g ==> a !in h
  }

  /** Groups have at least two members, none twice, and no member in common. */
  predicate WellFormed(gs: Groups) {
    && (forall k :: 0 <= k < |gs| ==> |gs[k]| >= 2 && Distinct(gs[k]))
    && (forall k, l :: 0 <= k < l < |gs| ==> Disjoint(gs[k], gs[l]))
  }

  /** Index of the first group that holds `a`, or |gs|. */
  function GroupOf(gs: Groups, a: int): (k: nat)
    ensures k <= |gs| && (k < |gs| ==> a in gs[k])
    ensures forall l :: 0 <= l < k ==> a !in gs[l]
  {
    if gs == [] then 0 else if a in gs[0] then 0 else 1 + GroupOf(gs[1..], a)
  }

  /** Index of the first occurrence of `a` in `g`, or |g|. */
  function Place(g: seq<int>, a: int): (i: nat)
    ensures i <= |g| && (i < |g| ==> g[i] == a)
    ensures forall j :: 0 <= j < i ==> g[j] != a
  {
    if g == [] then 0 else if g[0] == a then 0 else 1 + Place(g[1..], a)
  }

  // km_fs_add_to_dup_data in a normal run
  function Joined(gs: Groups, newFd: int, oldFd: int): Groups {
    var k := GroupOf(gs, oldFd);
    if k < |gs| then gs[k := gs[k] + [newFd]] else gs + [[oldFd, newFd]]
  }

  // km_fd_close_dup
  function Left(gs: Groups, fd: int): Groups {
    var k := GroupOf(gs, fd);
    if k == |gs| then gs
    else if |gs[k]| > 2 then gs[k := Without(gs[k], Place(gs[k], fd))]
    else Without(gs, k)
  }

  // ---- what the two updates mean -----------------------------------------------------------

  lemma TogetherUnique(gs: Groups, a: int, k: int)
    requires WellFormed(gs) && 0 <= k < |gs| && a in gs[k]
    ensures GroupOf(gs, a) == k
    ensures forall b :: Together(gs, a, b) <==> b in gs[k]
  {
    forall b | Together(gs, a, b)
      ensures b in gs[k]
    {
      var m :| 0 <= m < |gs| && a in gs[m] && b in gs[m];
    }
  }

  lemma GrownGroup(gs: Groups, k: nat, newFd: int)
    requires WellFormed(gs) && k < |gs| && !Grouped(gs, newFd)
    ensures WellFormed(gs[k := gs[k] + [newFd]])
    ensures forall a :: Grouped(gs[k := gs[k] + [newFd]], a) ==> Grouped(gs, a) || a == newFd
  {
    var hs := gs[k := gs[k] + [newFd]];
    assert forall m :: 0 <= m < |gs| ==> newFd !in gs[m];
    assert forall m :: 0 <= m < |hs| ==> hs[m] == if m == k then gs[k] + [newFd] else gs[m];
    forall m, l | 0 <= m < l < |hs|
      ensures Disjoint(hs[m], hs[l])
    {
      assert Disjoint(gs[m], gs[l]);
    }
    hide WellFormed, Disjoint;
    forall a | Grouped(hs, a)
      ensures Grouped(gs, a) || a == newFd
    {
      var m :| 0 <= m < |hs| && a in hs[m];
      assert a != newFd ==> a in gs[m];
    }
  }

  lemma AddedGroup(gs: Groups, newFd: int, oldFd: int)
    requires WellFormed(gs) && newFd != oldFd && !Grouped(gs, newFd) && !Grouped(gs, oldFd)
    ensures WellFormed(gs + [[oldFd, newFd]])
    ensures forall a :: Grouped(gs + [[oldFd, newFd]], a) ==> Grouped(gs, a) || a == newFd || a == oldFd
  {
    var hs := gs + [[oldFd, newFd]];
    assert forall m :: 0 <= m < |gs| ==> newFd !in gs[m] && oldFd !in gs[m];
    assert forall m :: 0 <= m < |gs| ==> hs[m] == gs[m];
    forall m, l | 0 <= m < l < |hs|
      ensures Disjoint(hs[m], hs[l])
    {
      if l < |gs| {
        assert Disjoint(gs[m], gs[l]);
      }
    }
  }

  lemma JoinedWellFormed(gs: Groups, newFd: int, oldFd: int)
    requires WellFormed(gs) && newFd != oldFd && !Grouped(gs, newFd)
    ensures WellFormed(Joined(gs, newFd, oldFd))
    ensures forall a :: Grouped(Joined(gs, newFd, oldFd), a) ==> Grouped(gs, a) || a == newFd || a == oldFd
  {
    var k := GroupOf(gs, oldFd);
    if k < |gs| {
      hide WellFormed;
      GrownGroup(gs, k, newFd);
    } else {
      assert !Grouped(gs, oldFd);
      hide WellFormed;
      AddedGroup(gs, newFd, oldFd);
    }
  }

  /** A dup joins the group of its original and changes no other pair. */
  lemma JoinedPair(gs: Groups, newFd: int, oldFd: int, a: int, b: int)
    requires WellFormed(gs) && newFd != oldFd && !Grouped(gs, newFd) && a != b && b != newFd
    ensures Together(Joined(gs, newFd, oldFd), a, b) <==>
            if a == newFd then b == oldFd || Together(gs, oldFd, b) else Together(gs, a, b)
  {
    var hs, k := Joined(gs, newFd, oldFd), GroupOf(gs, oldFd);
    if Together(hs, a, b) {
      var m :| 0 <= m < |hs| && a in hs[m] && b in hs[m];
      assert m < |gs| ==> b in gs[m];
    }
    if k < |gs| {
      assert newFd in hs[k] && oldFd in hs[k] && forall x :: x in gs[k] ==> x in hs[k];
      TogetherUnique(gs, oldFd, k);
    } else {
      assert hs[|gs|] == [oldFd, newFd];
    }
    if Together(gs, a, b) {
      var m :| 0 <= m < |gs| && a in gs[m] && b in gs[m];
      assert a in hs[m] && b in hs[m];
    }
  }

  lemma WithoutMembers(g: seq<int>, fd: int)
    requires Distinct(g) && fd in g
    ensures var h := Without(g, Place(g, fd));
            Distinct(h) && |h| == |g| - 1 && forall a :: a in h <==> a in g && a != fd
  {
    var i := Place(g, fd);
    var h := Without(g, i);
    hide Without;
    forall a | a in g && a != fd
      ensures a in h
    {
      var j :| 0 <= j < |g| && g[j] == a;
      var m := WithoutTo(g, i, j);
    }
    forall m | 0 <= m < |h|
      ensures h[m] in g && h[m] != fd
    {
      var j := WithoutFrom(g, i, m);
    }
    forall m, l | 0 <= m < l < |h|
      ensures h[m] != h[l]
    {
      var j := WithoutFrom(g, i, m);
      var n := WithoutFrom(g, i, l);
    }
  }

  lemma ShrunkGroup(gs: Groups, k: nat, h: seq<int>)
    requires WellFormed(gs) && k < |gs| && |h| >= 2 && Distinct(h) && forall a :: a in h ==> a in gs[k]
    ensures WellFormed(gs[k := h])
    ensures forall a :: Grouped(gs[k := h], a) ==> Grouped(gs, a)
  {
  }

  lemma DroppedGroup(gs: Groups, k: nat)
    requires WellFormed(gs) && k < |gs|
    ensures WellFormed(Without(gs, k))
    ensures forall a :: Grouped(Without(gs, k), a) <==> Grouped(gs, a) && a !in gs[k]
  {
    var hs := Without(gs, k);
    hide Without, Disjoint, Distinct;
    forall m | 0 <= m < |hs|
      ensures |hs[m]| >= 2 && Distinct(hs[m])
    {
      var i := WithoutFrom(gs, k, m);
    }
    forall m, l | 0 <= m < l < |hs|
      ensures Disjoint(hs[m], hs[l])
    {
      var i := WithoutFrom(gs, k, m);
      var j := WithoutFrom(gs, k, l);
    }
    assert WellFormed(hs);
    hide WellFormed, Grouped;
    forall a
      ensures Grouped(hs, a) <==> Grouped(gs, a) && a !in gs[k]
    {
      DroppedMember(gs, k, a);
    }
  }

  lemma DroppedMember(gs: Groups, k: nat, a: int)
    requires WellFormed(gs) && k < |gs|
    ensures Grouped(Without(gs, k), a) <==> Grouped(gs, a) && a !in gs[k]
  {
    var hs := Without(gs, k);
    hide Without;
    if Grouped(hs, a) {
      var m :| 0 <= m < |hs| && a in hs[m];
      var i := WithoutFrom(gs, k, m);
      if i < k {
        assert Disjoint(gs[i], gs[k]);
      } else {
        assert Disjoint(gs[k], gs[i]);
      }
    }
    if Grouped(gs, a) && a !in gs[k] {
      var i :| 0 <= i < |gs| && a in gs[i];
      var m := WithoutTo(gs, k, i);
    }
  }

  lemma LeftWellFormed(gs: Groups, fd: int)
    requires WellFormed(gs)
    ensures WellFormed(Left(gs, fd)) && !Grouped(Left(gs, fd), fd)
    ensures forall a :: Grouped(Left(gs, fd), a) ==> Grouped(gs, a)
  {
    var k := GroupOf(gs, fd);
    if k < |gs| {
      TogetherUnique(gs, fd, k);
      if |gs[k]| > 2 {
        WithoutMembers(gs[k], fd);
        ShrunkGroup(gs, k, Without(gs[k], Place(gs[k], fd)));
      } else {
        DroppedGroup(gs, k);
      }
    }
  }

  lemma ShrunkPair(gs: Groups, k: nat, h: seq<int>, fd: int, a: int, b: int)
    requires k < |gs| && a != fd && b != fd && forall x :: x in h <==> x in gs[k] && x != fd
    ensures Together(gs[k := h], a, b) <==> Together(gs, a, b)
  {
    var hs := gs[k := h];
    if Together(gs, a, b) {
      var m :| 0 <= m < |gs| && a in gs[m] && b in gs[m];
      assert a in hs[m] && b in hs[m];
    }
    if Together(hs, a, b) {
      var m :| 0 <= m < |hs| && a in hs[m] && b in hs[m];
      assert a in gs[m] && b in gs[m];
    }
  }

  lemma DroppedPair(gs: Groups, k: nat, fd: int, a: int, b: int)
    requires k < |gs| && |gs[k]| == 2 && Distinct(gs[k]) && fd in gs[k] && a != fd && b != fd && a != b
    ensures Together(Without(gs, k), a, b) <==> Together(gs, a, b)
  {
    var hs := Without(gs, k);
    hide Without;
    if Together(gs, a, b) {
      var m :| 0 <= m < |gs| && a in gs[m] && b in gs[m];
      var l := WithoutTo(gs, k, m);
    }
    if Together(hs, a, b) {
      var m :| 0 <= m < |hs| && a in hs[m] && b in hs[m];
      var l := WithoutFrom(gs, k, m);
    }
  }

  /** Closing takes the descriptor out of its group and changes no other pair. */
  lemma LeftPair(gs: Groups, fd: int, a: int, b: int)
    requires WellFormed(gs) && a != fd && b != fd && a != b
    ensures Together(Left(gs, fd), a, b) <==> Together(gs, a, b)
  {
    var k := GroupOf(gs, fd);
    if k < |gs| {
      if |gs[k]| > 2 {
        WithoutMembers(gs[k], fd);
        ShrunkPair(gs, k, Without(gs[k], Place(gs[k], fd)), fd, a, b);
      } else {
        DroppedPair(gs, k, fd, a, b);
      }
    }
  }
}
