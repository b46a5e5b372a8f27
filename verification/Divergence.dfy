/** Finding where the indexed chain left the active one, by walking down from the tip. */
module Divergence {
  import opened Collections

  type Hash = nat

  /** What the indexed store and the node answer for a height: a hash, or nothing on an error or, for the store,
      where nothing is stored. */
  datatype Readings = Readings(chain: nat -> Option<Hash>, stored: nat -> Option<Hash>)

  predicate Known(r: Readings, h: nat) {
    r.chain(h).Some? && r.stored(h).Some?
  }

  predicate Agrees(r: Readings, h: nat) {
    Known(r, h) && r.chain(h) == r.stored(h)
  }

  predicate Differs(r: Readings, h: nat) {
    Known(r, h) && r.chain(h) != r.stored(h)
  }

  /** The lower of the two tips. */
  function CheckTip(indexedTip: nat, activeTip: nat): (tip: nat)
    ensures tip <= indexedTip && tip <= activeTip && (tip == indexedTip || tip == activeTip)
  {
    if indexedTip <= activeTip then indexedTip else activeTip
  }

  /** What the walk answers, whatever the readings are. */
  ghost predicate IsDivergence(r: Readings, tip: nat, genesis: nat, d: Option<nat>) {
    match d
    case Some(h) =>
      && genesis <= h <= tip
      && (forall k :: h <= k <= tip ==> Differs(r, k))
      && (h == genesis || Agrees(r, h - 1))
    case None =>
      tip < genesis || exists m :: WalkEnds(r, tip, genesis, m)
  }

  /** The walk stops at `m` without an answer: the tips agree, or something cannot be read. */
  ghost predicate WalkEnds(r: Readings, tip: nat, genesis: nat, m: nat) {
    && genesis <= m <= tip
    && (forall k :: m < k <= tip ==> Differs(r, k))
    && (!Known(r, m) || (m == tip && Agrees(r, m)))
  }

  method DetectFirstDivergenceHeight(r: Readings, indexedTip: nat, activeTip: nat, genesis: nat) returns (d: Option<nat>)
    ensures IsDivergence(r, CheckTip(indexedTip, activeTip), genesis, d)
  {
    var checkTip := CheckTip(indexedTip, activeTip);
    if checkTip < genesis {
      return None;
    }
    var h := checkTip;
    while true
      invariant genesis <= h <= checkTip
      invariant forall k :: h < k <= checkTip ==> Differs(r, k)
      decreases h
    {
      var chainHash := r.chain(h);
      var indexedHash := r.stored(h);
      if chainHash.None? || indexedHash.None? {
        assert WalkEnds(r, checkTip, genesis, h);
        return None;
      }
      if indexedHash == chainHash {
        if h == checkTip {
          assert WalkEnds(r, checkTip, genesis, h);
          return None;
        }
        return Some(h + 1);
      }
      if h == genesis {
        return Some(genesis);
      }
      h := h - 1;
    }
  }

  /** The readings leave only one answer. */
  lemma DivergenceIsUnique(r: Readings, tip: nat, genesis: nat, c: Option<nat>, d: Option<nat>)
    requires IsDivergence(r, tip, genesis, c) && IsDivergence(r, tip, genesis, d)
    ensures c == d
  {
    if c.Some? && d.Some? {
      OneDivergence(r, tip, genesis, c.value, d.value);
      OneDivergence(r, tip, genesis, d.value, c.value);
    } else if c.Some? {
      NoEnd(r, tip, genesis, c.value);
    } else if d.Some? {
      NoEnd(r, tip, genesis, d.value);
    }
  }

  lemma OneDivergence(r: Readings, tip: nat, genesis: nat, c: nat, d: nat)
    requires IsDivergence(r, tip, genesis, Some(c)) && IsDivergence(r, tip, genesis, Some(d))
    ensures c >= d
  {
    var below := if d > 0 then d - 1 else 0;
    assert c <= below ==> Differs(r, below);
  }

  lemma NoEnd(r: Readings, tip: nat, genesis: nat, d: nat)
    requires IsDivergence(r, tip, genesis, Some(d))
    ensures !IsDivergence(r, tip, genesis, None)
  {
    forall m: nat ensures !WalkEnds(r, tip, genesis, m) {
      if genesis <= m <= tip {
        assert m >= d ==> Differs(r, m);
        assert m < d ==> Agrees(r, d - 1);
        assert m < d - 1 && WalkEnds(r, tip, genesis, m) ==> Differs(r, d - 1);
      }
    }
  }

  /** If the tips differ and everything can be read, there is an answer. */
  lemma {:induction false} DifferingTipDiverges(r: Readings, tip: nat, genesis: nat, h: nat) returns (d: nat)
    requires genesis <= h <= tip && (forall k :: h <= k <= tip ==> Differs(r, k))
    requires forall k :: genesis <= k <= tip ==> Known(r, k)
    ensures IsDivergence(r, tip, genesis, Some(d))
  {
    if h == genesis || Agrees(r, h - 1) {
      d := h;
    } else {
      assert Known(r, h - 1);
      d := DifferingTipDiverges(r, tip, genesis, h - 1);
    }
  }

  // ---- the least height of disagreement --------------------------------------------------------------

  ghost predicate AllKnown(r: Readings, tip: nat, genesis: nat) {
    forall h :: genesis <= h <= tip ==> Known(r, h)
  }

  /** Where the two chains agree, they agree all the way down. */
  ghost predicate AgreementIsPrefix(r: Readings, tip: nat, genesis: nat) {
    forall h, k :: genesis <= h <= k <= tip && Agrees(r, k) ==> Agrees(r, h)
  }

  ghost predicate IsLeastDisagreement(r: Readings, tip: nat, genesis: nat, d: Option<nat>) {
    match d
    case Some(h) => genesis <= h <= tip && Differs(r, h) && forall k :: genesis <= k < h ==> Agrees(r, k)
    case None => forall k :: genesis <= k <= tip ==> Agrees(r, k)
  }

  /** With every height readable, the walk finds the least height of disagreement exactly if the heights of
      agreement are an initial stretch. */
  lemma WalkFindsLeast(r: Readings, tip: nat, genesis: nat, d: Option<nat>)
    requires AllKnown(r, tip, genesis) && IsDivergence(r, tip, genesis, d)
    ensures IsLeastDisagreement(r, tip, genesis, d) <==> AgreementIsPrefix(r, tip, genesis)
  {
    if AgreementIsPrefix(r, tip, genesis) {
      if d.None? && genesis <= tip {
        var m :| WalkEnds(r, tip, genesis, m);
        assert Known(r, m);
      }
    } else if IsLeastDisagreement(r, tip, genesis, d) {
      var h, k :| genesis <= h <= k <= tip && Agrees(r, k) && !Agrees(r, h);
      LeastIsPrefix(r, tip, genesis, d, h, k);
    }
  }

  lemma LeastIsPrefix(r: Readings, tip: nat, genesis: nat, d: Option<nat>, h: nat, k: nat)
    requires IsDivergence(r, tip, genesis, d) && IsLeastDisagreement(r, tip, genesis, d)
    requires genesis <= h <= k <= tip && Agrees(r, k)
    ensures Agrees(r, h)
  {
    assert d.Some? && k >= d.value ==> Differs(r, k);
  }

  /** Hash-linked chains agree on an initial stretch: equal hashes have equal parents. */
  ghost predicate Linked(chain: nat -> Option<Hash>, parent: Hash -> Hash, tip: nat, genesis: nat) {
    forall h :: genesis < h <= tip && chain(h).Some? && chain(h - 1).Some? ==> parent(chain(h).value) == chain(h - 1).value
  }

  lemma {:induction false} LinkedAgreement(r: Readings, parent: Hash -> Hash, tip: nat, genesis: nat, h: nat, k: nat)
    requires AllKnown(r, tip, genesis) && Linked(r.chain, parent, tip, genesis) && Linked(r.stored, parent, tip, genesis)
    requires genesis <= h <= k <= tip && Agrees(r, k)
    ensures Agrees(r, h)
    decreases k - h
  {
    if h < k {
      assert Known(r, k - 1);
      assert parent(r.chain(k).value) == r.chain(k - 1).value;
      assert parent(r.stored(k).value) == r.stored(k - 1).value;
      LinkedAgreement(r, parent, tip, genesis, h, k - 1);
    }
  }

  /** For hash-linked chains, fully readable, the walk answers nothing exactly when the chains agree from
      genesis to the tip, and otherwise the least height of disagreement; what lies below it agrees. */
  lemma LinkedWalkFindsLeast(r: Readings, parent: Hash -> Hash, tip: nat, genesis: nat, d: Option<nat>)
    requires AllKnown(r, tip, genesis) && Linked(r.chain, parent, tip, genesis) && Linked(r.stored, parent, tip, genesis)
    requires IsDivergence(r, tip, genesis, d)
    ensures IsLeastDisagreement(r, tip, genesis, d)
    ensures d.None? <==> forall k :: genesis <= k <= tip ==> Agrees(r, k)
  {
    forall h, k | genesis <= h <= k <= tip && Agrees(r, k) ensures Agrees(r, h) {
      LinkedAgreement(r, parent, tip, genesis, h, k);
    }
    WalkFindsLeast(r, tip, genesis, d);
    assert d.Some? ==> !Agrees(r, d.value);
  }
}
