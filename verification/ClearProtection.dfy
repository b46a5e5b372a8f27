/** Holding back removals when the node's mempool suddenly looks much smaller, but never for longer than the
    configured window. */
module ClearProtection {
  import opened Collections

  const SHARP_DROP_MIN := 20_000

  /** One refresh: the time, how many transactions the store holds and how many the node listed. */
  datatype Refresh = Refresh(now: nat, current: nat, canonical: nat)

  predicate SharpDrop(r: Refresh) {
    r.current > SHARP_DROP_MIN && r.canonical * 100 <= r.current * 80
  }

  predicate Active(until: Option<nat>, now: nat) {
    until.Some? && until.value > now
  }

  predicate Expired(until: Option<nat>, now: nat) {
    until.Some? && until.value <= now
  }

  predicate Refuses(until: Option<nat>, r: Refresh) {
    !Expired(until, r.now) && (SharpDrop(r) || (Active(until, r.now) && r.canonical < r.current))
  }

  function Window(secs: nat): nat {
    Max(secs, 1)
  }

  function NextUntil(until: Option<nat>, r: Refresh, secs: nat): Option<nat> {
    if Refuses(until, r) then (if Active(until, r.now) then until else Some(r.now + Window(secs)))
    else if Expired(until, r.now) then None else until
  }

  /** What is refused, in plain numbers: without a deadline a store of more than 20000 against a list of at most four
      fifths of it, before the deadline any shorter list, and nothing from the deadline on. */
  lemma RefusesExactly(until: Option<nat>, r: Refresh)
    ensures until.None? ==> (Refuses(until, r) <==> r.current > 20_000 && 5 * r.canonical <= 4 * r.current)
    ensures until.Some? ==> (Refuses(until, r) <==> r.now < until.value && r.canonical < r.current)
  {
  }

  /** A refresh that lists at least as many as the store holds is never refused, and if one is refused, so is one that
      lists fewer. */
  lemma RefusalsAreMonotone(until: Option<nat>, r: Refresh, fewer: nat)
    requires fewer <= r.canonical
    ensures r.canonical >= r.current ==> !Refuses(until, r)
    ensures Refuses(until, r) ==> Refuses(until, r.(canonical := fewer))
  {
    RefusesExactly(until, r);
    RefusesExactly(until, r.(canonical := fewer));
  }

  /** A deadline that stands after a refresh lies ahead of it, and a refusal leaves one. */
  lemma DeadlineIsAhead(until: Option<nat>, r: Refresh, secs: nat)
    ensures NextUntil(until, r, secs).Some? ==> NextUntil(until, r, secs).value > r.now
    ensures Refuses(until, r) ==> NextUntil(until, r, secs).Some?
    ensures until.Some? && until.value > r.now ==> NextUntil(until, r, secs) == until
  {
  }

  class MempoolStatus {
    var clearProtectionUntil: Option<nat>

    constructor ()
      ensures clearProtectionUntil == None
    {
      clearProtectionUntil := None;
    }

    method Update(r: Refresh, secs: nat) returns (refused: bool)
      modifies this
      ensures refused <==> Refuses(old(clearProtectionUntil), r)
      ensures old(clearProtectionUntil).None? ==> (refused <==> r.current > 20_000 && 5 * r.canonical <= 4 * r.current)
      ensures old(clearProtectionUntil).Some? ==> (refused <==> r.now < old(clearProtectionUntil).value && r.canonical < r.current)
      ensures clearProtectionUntil == NextUntil(old(clearProtectionUntil), r, secs)
    {
      var until := clearProtectionUntil;
      var clearActive := until.Some? && until.value > r.now;
      var protectionExpired := until.Some? && until.value <= r.now;
      var sharpDrop := r.current > SHARP_DROP_MIN && r.canonical * 100 <= r.current * 80;
      refused := !protectionExpired && (sharpDrop || (clearActive && r.canonical < r.current));
      if refused {
        clearProtectionUntil := if clearActive then until else Some(r.now + Max(secs, 1));
      } else if protectionExpired {
        clearProtectionUntil := None;
      }
    }
  }

  // ---- over a run of refreshes ---------------------------------------------------------------------------

  /** The deadline before refresh `i` of a run that starts without one. */
  function UntilBefore(run: seq<Refresh>, secs: nat, i: nat): Option<nat>
    requires i <= |run|
  {
    if i == 0 then None else NextUntil(UntilBefore(run, secs, i - 1), run[i - 1], secs)
  }

  ghost predicate Refused(run: seq<Refresh>, secs: nat, i: nat)
    requires i < |run|
  {
    Refuses(UntilBefore(run, secs, i), run[i])
  }

  /** Refresh `o` opened a window that still stands before refresh `i`. */
  ghost predicate OpenSince(run: seq<Refresh>, secs: nat, o: nat, i: nat)
    requires i <= |run|
  {
    && o < i && UntilBefore(run, secs, o) == None && Refused(run, secs, o)
    && forall k :: o < k <= i ==> UntilBefore(run, secs, k) == Some(run[o].now + if secs == 0 then 1 else secs)
  }

  /** A deadline stands because some refusal without one set it, and it has not moved since. */
  lemma {:induction false} DeadlineStands(run: seq<Refresh>, secs: nat, i: nat) returns (o: nat)
    requires i <= |run| && UntilBefore(run, secs, i).Some?
    ensures OpenSince(run, secs, o, i)
  {
    if UntilBefore(run, secs, i - 1) == None {
      o := i - 1;
    } else {
      o := DeadlineStands(run, secs, i - 1);
    }
  }

  /** Every refusal lies in a window: some refusal at or before it opened it, the deadline has not moved, and less
      than the window's length has passed. */
  lemma RefusalsEnd(run: seq<Refresh>, secs: nat, i: nat) returns (o: nat)
    requires i < |run| && Refused(run, secs, i)
    ensures o <= i && UntilBefore(run, secs, o) == None && Refused(run, secs, o)
    ensures o < i ==> OpenSince(run, secs, o, i)
    ensures run[i].now < run[o].now + if secs == 0 then 1 else secs
  {
    if UntilBefore(run, secs, i).None? {
      o := i;
    } else {
      o := DeadlineStands(run, secs, i);
    }
  }

  /** Whatever is refused or accepted in between, the window a refusal opened stands until its time has passed. */
  lemma {:induction false} WindowStays(run: seq<Refresh>, secs: nat, o: nat, i: nat)
    requires o < i <= |run| && UntilBefore(run, secs, o) == None && Refused(run, secs, o)
    requires forall k :: o < k < i ==> run[k].now < run[o].now + if secs == 0 then 1 else secs
    ensures UntilBefore(run, secs, i) == Some(run[o].now + if secs == 0 then 1 else secs)
  {
    if o + 1 < i {
      WindowStays(run, secs, o, i - 1);
      assert run[i - 1].now < run[o].now + if secs == 0 then 1 else secs;
    }
  }

  /** Hence a drop that persists is accepted by the first refresh a full window after the refusal that opened it, and the
      protection starts afresh. */
  lemma PersistentDropIsAccepted(run: seq<Refresh>, secs: nat, o: nat, i: nat)
    requires o < i < |run| && UntilBefore(run, secs, o) == None && Refused(run, secs, o)
    requires forall k :: o < k < i ==> run[k].now < run[o].now + if secs == 0 then 1 else secs
    requires run[i].now >= run[o].now + if secs == 0 then 1 else secs
    ensures !Refused(run, secs, i) && UntilBefore(run, secs, i + 1) == None
  {
    WindowStays(run, secs, o, i);
  }
}
