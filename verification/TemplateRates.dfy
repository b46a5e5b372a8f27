/** Which effective rates the templates give out, told from the finished blocks alone: they fall into packages, placed one
    after the other, and each package has one rate, the least of what its last member, its ancestors placed before and
    the package itself pay. */
module TemplateRates {
  import opened Collections
  import opened TxGraph
  import opened TemplateSpec
  import opened TemplateSafety
  import opened TemplateBounds

  /** All fees of the package by all its sizes. */
  ghost function RateOfPackage(e: Env, pkg: seq<Txid>): real
    requires forall x :: x in pkg ==> x in e.txs
  {
    e.rate(SumSeq(FeesOf(e.txs), pkg), SumSeq(SizesOf(e.txs), pkg))
  }

  /** `r` is the least of what `t` itself pays and the rates of its ancestors that have one. */
  ghost predicate IsDependencyRate(e: Env, rates: map<Txid, real>, t: Txid, r: real)
    requires ValidEnv(e) && t in e.txs
  {
    && r <= e.txs[t].feeRate
    && (forall a :: a in e.anc[t] && a in rates ==> r <= rates[a])
    && (r == e.txs[t].feeRate || exists a :: a in e.anc[t] && a in rates && r == rates[a])
  }

  /** `r` is the least of the dependency rate of `t` and `own`. */
  ghost predicate IsPackageRate(e: Env, rates: map<Txid, real>, t: Txid, own: real, r: real)
    requires ValidEnv(e) && t in e.txs
  {
    && r <= own && r <= e.txs[t].feeRate
    && (forall a :: a in e.anc[t] && a in rates ==> r <= rates[a])
    && (r == own || r == e.txs[t].feeRate || exists a :: a in e.anc[t] && a in rates && r == rates[a])
  }

  ghost function Restricted(rates: map<Txid, real>, s: set<Txid>): map<Txid, real> {
    map t | t in rates && t in s :: rates[t]
  }

  /** From position `k` on, `order` is the last member's ancestors not placed before and then the last member, all at
      the rate of the package. */
  ghost predicate IsPackage(e: Env, order: seq<Txid>, k: nat, rates: map<Txid, real>)
    requires ValidEnv(e) && Elements(order) <= e.txs.Keys && Elements(order) <= rates.Keys && k < |order|
  {
    var t, pkg, before := order[|order| - 1], order[k..], Elements(order[..k]);
    && Elements(pkg) == Closure(e, t) - before
    && (forall x <- pkg :: rates[x] == rates[t])
    && IsPackageRate(e, Restricted(rates, before), t, RateOfPackage(e, pkg), rates[t])
  }

  ghost predicate InPackages(e: Env, order: seq<Txid>, rates: map<Txid, real>)
    requires ValidEnv(e) && Elements(order) <= e.txs.Keys && Elements(order) <= rates.Keys
    decreases |order|
  {
    order == [] || exists k :: 0 <= k < |order| && IsPackage(e, order, k, rates) && InPackages(e, order[..k], rates)
  }

  // ---- what placing does to the rates ----------------------------------------------------------------

  lemma {:induction false} PackagesStay(e: Env, order: seq<Txid>, rates: map<Txid, real>, more: map<Txid, real>)
    requires ValidEnv(e) && Elements(order) <= e.txs.Keys && Elements(order) <= rates.Keys && InPackages(e, order, rates)
    requires forall x <- order :: x in more && more[x] == rates[x]
    ensures InPackages(e, order, more)
    decreases |order|
  {
    hide ValidEnv, RateOfPackage, IsPackageRate, Closure;
    if order != [] {
      var k :| 0 <= k < |order| && IsPackage(e, order, k, rates) && InPackages(e, order[..k], rates);
      PackagesStay(e, order[..k], rates, more);
      assert Restricted(rates, Elements(order[..k])) == Restricted(more, Elements(order[..k]));
      assert IsPackage(e, order, k, more);
    }
  }

  lemma SumOfPackage(e: Env, placed: set<Txid>, t: Txid, f: map<Txid, nat>)
    requires ValidEnv(e) && Nested(e) && t in e.txs && f.Keys == e.txs.Keys
    ensures SumSeq(f, Package(e, placed, t)) == f[t] + SumOver(f, Remaining(e, placed, t))
  {
    hide Package, SumSeq, SumOver;
    var pkg, rest := Package(e, placed, t), Remaining(e, placed, t);
    PackageElements(e, placed, t);
    SumSeqIsSumOver(f, pkg);
    SumRemove(f, rest + {t}, t);
    assert rest + {t} - {t} == rest;
  }

  lemma ScoreIsRateOfPackage(e: Env, placed: set<Txid>, t: Txid)
    requires ValidEnv(e) && Nested(e) && t in e.txs
    ensures Score(e, placed, t) == RateOfPackage(e, Package(e, placed, t))
  {
    hide Package, SumSeq, SumOver, Remaining;
    SumOfPackage(e, placed, t, FeesOf(e.txs));
    SumOfPackage(e, placed, t, SizesOf(e.txs));
    Literally(e);
  }

  ghost predicate Rated(e: Env, st: State)
    requires ValidEnv(e) && Wf(e, st) && Safe(e, st)
  {
    && Elements(Order(st)) <= e.txs.Keys && Elements(Order(st)) <= st.rates.Keys
    && InPackages(e, Order(st), st.rates)
    && forall t <- e.txs :: IsDependencyRate(e, st.rates, t, st.dep[t])
  }

  lemma LoweredIsDependencyRate(e: Env, rates: map<Txid, real>, added: set<Txid>, rate: real, t: Txid, dep: real)
    requires ValidEnv(e) && t in e.txs && IsDependencyRate(e, rates, t, dep) && added !! rates.Keys
    ensures IsDependencyRate(e, rates + (map x | x in added :: rate), t, if e.anc[t] * added != {} then MinReal(dep, rate) else dep)
  {
    var more := rates + (map x | x in added :: rate);
    forall a | a in e.anc[t] && a in more ensures a in rates || (a in e.anc[t] * added && more[a] == rate) {
    }
    if e.anc[t] * added != {} {
      var a :| a in e.anc[t] * added;
      assert a in more && more[a] == rate;
    }
    if dep != e.txs[t].feeRate {
      var a :| a in e.anc[t] && a in rates && dep == rates[a];
      assert a in more && more[a] == dep;
    }
  }

  lemma EffectiveIsPackageRate(e: Env, st: State, t: Txid)
    requires ValidEnv(e) && Wf(e, st) && t in e.txs && IsDependencyRate(e, st.rates, t, st.dep[t])
    ensures IsPackageRate(e, st.rates, t, Score(e, st.rates.Keys, t), EffectiveRate(e, st, t))
  {
    hide ValidEnv, Score;
  }

  /** Appending a package keeps the order in packages. */
  lemma PackageIsAppended(e: Env, order: seq<Txid>, rates: map<Txid, real>, pkg: seq<Txid>, t: Txid, rate: real)
    requires ValidEnv(e) && t in e.txs && Elements(order) == rates.Keys <= e.txs.Keys && InPackages(e, order, rates)
    requires pkg != [] && pkg[|pkg| - 1] == t && Elements(pkg) == Closure(e, t) - rates.Keys && Elements(pkg) <= e.txs.Keys
    requires IsPackageRate(e, rates, t, RateOfPackage(e, pkg), rate)
    ensures var more := rates + (map x | x in Elements(pkg) :: rate);
            Elements(order + pkg) <= e.txs.Keys && Elements(order + pkg) <= more.Keys && InPackages(e, order + pkg, more)
  {
    hide RateOfPackage, IsPackageRate, IsPackage, ValidEnv;
    var more := rates + (map x | x in Elements(pkg) :: rate);
    var longer, k := order + pkg, |order|;
    assert longer[..k] == order && longer[k..] == pkg;
    forall x <- order ensures x in more && more[x] == rates[x] {
      assert x in Elements(order) && x !in Elements(pkg);
    }
    PackagesStay(e, order, rates, more);
    LastPackage(e, order, rates, pkg, t, rate, more);
  }

  lemma LastPackage(e: Env, order: seq<Txid>, rates: map<Txid, real>, pkg: seq<Txid>, t: Txid, rate: real, more: map<Txid, real>)
    requires ValidEnv(e) && t in e.txs && Elements(order) == rates.Keys <= e.txs.Keys
    requires pkg != [] && pkg[|pkg| - 1] == t && Elements(pkg) == Closure(e, t) - rates.Keys && Elements(pkg) <= e.txs.Keys
    requires IsPackageRate(e, rates, t, RateOfPackage(e, pkg), rate) && more == rates + (map x | x in Elements(pkg) :: rate)
    ensures Elements(order + pkg) <= e.txs.Keys && Elements(order + pkg) <= more.Keys
    ensures IsPackage(e, order + pkg, |order|, more)
  {
    hide ValidEnv, RateOfPackage, IsPackageRate, Closure;
    var longer, k := order + pkg, |order|;
    assert longer[..k] == order && longer[k..] == pkg && longer[|longer| - 1] == t;
    assert Restricted(more, Elements(order)) == rates;
    forall x <- pkg ensures more[x] == rate {
      assert x in Elements(pkg);
    }
    assert t in pkg;
  }

  lemma PackageIs(e: Env, placed: set<Txid>, t: Txid)
    requires ValidEnv(e) && Nested(e) && t in e.txs && t !in placed
    ensures var pkg := Package(e, placed, t);
            && pkg != [] && pkg[|pkg| - 1] == t && Elements(pkg) == Closure(e, t) - placed && Elements(pkg) <= e.txs.Keys
            && Score(e, placed, t) == RateOfPackage(e, pkg)
  {
    hide Score, RateOfPackage, Package;
    PackageElements(e, placed, t);
    PackageOrder(e, placed, t);
    ScoreIsRateOfPackage(e, placed, t);
  }

  /** What is known of the state and rates before and after a package is placed. */
  lemma PlacedPackage(e: Env, st: State, t: Txid)
    requires ValidEnv(e) && Nested(e) && Wf(e, st) && Safe(e, st) && t in e.txs && !Used(st, t)
    requires !Conflicts(e.txs, st.spent, Package(e, st.rates.Keys, t))
    ensures var r, pkg, rate := Place(e, st, t), Package(e, st.rates.Keys, t), EffectiveRate(e, st, t);
            && Order(r) == Order(st) + pkg && r.rates == st.rates + (map x | x in Elements(pkg) :: rate)
            && r.dep == LowerRates(e, st.dep, Elements(pkg), rate) && Elements(pkg) !! st.rates.Keys
  {
    hide Package, Unused, SumSeq, NewlyModified, EffectiveRate, Conflicts, ValidEnv, Flatten, LowerRates, Safe;
    PackageIsFresh(e, st, t);
  }

  lemma SafeOrder(e: Env, st: State)
    requires ValidEnv(e) && Safe(e, st)
    ensures Elements(Order(st)) == st.rates.Keys
  {
  }

  lemma PlaceIsRated(e: Env, st: State, t: Txid)
    requires ValidEnv(e) && Nested(e) && Wf(e, st) && Safe(e, st) && Rated(e, st) && t in e.txs && !Used(st, t)
    requires !Conflicts(e.txs, st.spent, Package(e, st.rates.Keys, t))
    ensures Safe(e, Place(e, st, t)) && Rated(e, Place(e, st, t))
  {
    hide Package, Place, Order, EffectiveRate, Conflicts, InPackages, IsDependencyRate, IsPackageRate, ValidEnv, Safe, Elements, Nested, Closure;
    var pkg, rate := Package(e, st.rates.Keys, t), EffectiveRate(e, st, t);
    PlaceIsSafe(e, st, t);
    PlacedPackage(e, st, t);
    SafeOrder(e, st);
    PackageIs(e, st.rates.Keys, t);
    EffectiveIsPackageRate(e, st, t);
    PackageIsAppended(e, Order(st), st.rates, pkg, t, rate);
    var r := Place(e, st, t);
    forall u <- e.txs ensures IsDependencyRate(e, r.rates, u, r.dep[u]) {
      LoweredIsDependencyRate(e, st.rates, Elements(pkg), rate, u, st.dep[u]);
    }
  }

  // ---- every run -----------------------------------------------------------------------------------------

  /** Steps that place nothing change neither order nor rates. */
  ghost predicate SameRates(st: State, r: State) {
    Order(r) == Order(st) && r.rates == st.rates && r.dep == st.dep
  }

  lemma SameRatesAreRated(e: Env, st: State, r: State)
    requires ValidEnv(e) && Wf(e, st) && Safe(e, st) && Rated(e, st) && SameRates(st, r) && Wf(e, r) && Safe(e, r)
    ensures Rated(e, r)
  {
    hide ValidEnv, Safe, Wf, Order, InPackages, IsDependencyRate;
  }

  lemma MaybeCloseKeepsRates(e: Env, st: State)
    requires ValidEnv(e) && Wf(e, st)
    ensures SameRates(st, MaybeClose(e, st).st)
  {
    hide Reinsert, ValidEnv;
    var s := st.(blocks := st.blocks + [st.block], block := [], weight := BLOCK_RESERVED_WEIGHT, overflow := []);
    ReinsertKeeps(e, s, st.overflow);
    assert Order(s) == Order(st);
  }

  lemma MaybeCloseIsRated(e: Env, st: State)
    requires ValidEnv(e) && Wf(e, st) && Safe(e, st) && Rated(e, st)
    ensures Safe(e, MaybeClose(e, st).st) && Rated(e, MaybeClose(e, st).st)
  {
    hide ValidEnv, Wf, Safe, Rated, MaybeClose;
    MaybeCloseIsSafe(e, st);
    MaybeCloseKeepsRates(e, st);
    SameRatesAreRated(e, st, MaybeClose(e, st).st);
  }

  lemma FailureKeepsRates(e: Env, st: State, t: Txid)
    requires ValidEnv(e) && Nested(e) && Wf(e, st) && Safe(e, st) && Rated(e, st) && t in e.txs && !Used(st, t)
    ensures Safe(e, Postpone(e, st, t)) && Rated(e, Postpone(e, st, t))
    ensures Conflicts(e.txs, st.spent, Package(e, st.rates.Keys, t)) ==> Safe(e, Drop(e, st, t)) && Rated(e, Drop(e, st, t))
  {
    hide ValidEnv, Nested, Package, Conflicts, InPackages, IsDependencyRate, Hopeless, PlacedInOrder;
    if Conflicts(e.txs, st.spent, Package(e, st.rates.Keys, t)) {
      DropIsSafe(e, st, t);
      SameRatesAreRated(e, st, Drop(e, st, t));
    }
    assert Safe(e, Postpone(e, st, t));
    SameRatesAreRated(e, st, Postpone(e, st, t));
  }

  lemma ConsiderIsRated(e: Env, st: State, t: Txid)
    requires ValidEnv(e) && Nested(e) && Wf(e, st) && Safe(e, st) && Rated(e, st) && t in e.txs
    ensures Safe(e, Consider(e, st, t).st) && Rated(e, Consider(e, st, t).st)
  {
    hide Package, MaybeClose, Place, Postpone, Drop, Fits, Conflicts, Safe, Rated, Nested, ValidEnv, Wf;
    if !Used(st, t) {
      FailureKeepsRates(e, st, t);
      if !Fits(e, st, t) {
        MaybeCloseIsRated(e, Postpone(e, st, t));
      } else if !Conflicts(e.txs, st.spent, Package(e, st.rates.Keys, t)) {
        PlaceIsRated(e, st, t);
        MaybeCloseIsRated(e, Place(e, st, t));
      }
    }
  }

  lemma TakeKeepsRates(e: Env, st: State, top: nat)
    requires ValidEnv(e) && Wf(e, st) && Safe(e, st) && Rated(e, st) && top <= |st.arr|
    ensures var s := st.(top := top);
            && Safe(e, s) && Rated(e, s) && Safe(e, Take(e, s)) && Rated(e, Take(e, s))
  {
    hide TakesArray, Best, Hopeless, PlacedInOrder, InPackages, IsDependencyRate, ValidEnv, Scores;
    var s := st.(top := top);
    assert Safe(e, s) && Safe(e, Take(e, s));
    SameRatesAreRated(e, st, s);
    SameRatesAreRated(e, st, Take(e, s));
  }

  lemma StepIsRated(e: Env, st: State)
    requires ValidEnv(e) && Nested(e) && Wf(e, st) && Safe(e, st) && Rated(e, st)
    ensures Safe(e, Step(e, st).st) && Rated(e, Step(e, st).st)
  {
    hide SkipTop, Candidate, MaybeClose, Consider, Take, Safe, Rated, ValidEnv, Nested;
    var s := st.(top := SkipTop(e, st, st.top));
    TakeKeepsRates(e, st, s.top);
    if HasWork(st) {
      match Candidate(e, s)
      case None =>
        MaybeCloseIsRated(e, s);
      case Some(t) =>
        ConsiderIsRated(e, Take(e, s), t);
    }
  }

  lemma {:induction false} RunIsRated(e: Env, arr: seq<Txid>, n: nat)
    requires ValidEnv(e) && Nested(e) && InitialArray(e, arr)
    ensures Safe(e, Iterate(e, Init(e, arr), n).st) && Rated(e, Iterate(e, Init(e, arr), n).st)
  {
    hide Step, InitialArray, Safe, Rated, ValidEnv, Nested, Wf;
    if n == 0 {
      RunIsSafe(e, arr, 0);
      InitIsRated(e, arr);
    } else {
      hide Init;
      RunIsRated(e, arr, n - 1);
      var r := Iterate(e, Init(e, arr), n - 1);
      if r.Running? {
        StepIsRated(e, r.st);
      }
    }
  }

  lemma InitIsRated(e: Env, arr: seq<Txid>)
    requires ValidEnv(e) && InitialArray(e, arr) && Safe(e, Init(e, arr))
    ensures Rated(e, Init(e, arr))
  {
    hide InitialArray;
  }

  // ---- the finished templates --------------------------------------------------------------------------

  /** A transaction never has a higher rate than one of its ancestors. */
  lemma {:induction false} RatesFall(e: Env, order: seq<Txid>, rates: map<Txid, real>, t: Txid, a: Txid)
    requires ValidEnv(e) && Nested(e) && Elements(order) <= e.txs.Keys && Elements(order) <= rates.Keys
    requires Topological(e, order) && InPackages(e, order, rates) && t in order && a in e.anc[t]
    ensures a in order && rates[t] <= rates[a]
    decreases |order|
  {
    hide IsPackage, ValidEnv, Nested, Topological;
    AncestorsOfAll(e);
    var k :| 0 <= k < |order| && IsPackage(e, order, k, rates) && InPackages(e, order[..k], rates);
    assert order == order[..k] + order[k..];
    if t in order[..k] {
      TopologicalPrefix(e, order, k);
      RatesFall(e, order[..k], rates, t, a);
    } else {
      RatesFallInPackage(e, order, k, rates, t, a);
    }
  }

  lemma RatesFallInPackage(e: Env, order: seq<Txid>, k: nat, rates: map<Txid, real>, t: Txid, a: Txid)
    requires ValidEnv(e) && Nested(e) && Elements(order) <= e.txs.Keys && Elements(order) <= rates.Keys
    requires k < |order| && IsPackage(e, order, k, rates) && t in order[k..] && a in e.anc[t]
    ensures a in order && rates[t] <= rates[a]
  {
    hide RateOfPackage;
    var c := order[|order| - 1];
    assert t in Elements(order[k..]);
    assert a in Closure(e, c);
    assert a in Elements(order[k..]) || a in Elements(order[..k]);
  }

  lemma TopologicalPrefix(e: Env, order: seq<Txid>, k: nat)
    requires ValidEnv(e) && Topological(e, order) && k <= |order|
    ensures Topological(e, order[..k])
  {
    forall i | 0 <= i < k ensures e.anc[order[i]] <= Elements(order[..k][..i]) {
      assert order[..k][..i] == order[..i];
    }
  }

  /** Exactly the placed transactions have a rate, they fall into packages with one rate each, and no transaction has a
      higher rate than one of its ancestors. */
  ghost predicate RatesExplained(e: Env, blocks: seq<seq<Txid>>, rates: map<Txid, real>)
    requires ValidEnv(e)
  {
    && Elements(Flatten(blocks)) == rates.Keys <= e.txs.Keys
    && InPackages(e, Flatten(blocks), rates)
    && forall t, a :: t in rates && a in e.anc[t] ==> a in rates && rates[t] <= rates[a]
  }

  /** The rates of the finished templates. */
  lemma RatesAreExplained(e: Env, arr: seq<Txid>, blocks: seq<seq<Txid>>, rates: map<Txid, real>)
    requires ValidEnv(e) && Nested(e) && InitialArray(e, arr) && Produces(e, arr, blocks, rates)
    ensures RatesExplained(e, blocks, rates)
  {
    hide Iterate, InitialArray, Init, ValidEnv, Nested, Safe, Rated, RatesExplained, BlocksOf, Wf;
    var n: nat :|
      var r := Iterate(e, Init(e, arr), n);
      r.Finished? && blocks == BlocksOf(r.st) && rates == r.st.rates;
    RunIsRated(e, arr, n);
    RatedIsExplained(e, Iterate(e, Init(e, arr), n).st);
  }

  lemma RatedIsExplained(e: Env, st: State)
    requires ValidEnv(e) && Nested(e) && Wf(e, st) && Safe(e, st) && Rated(e, st)
    ensures RatesExplained(e, BlocksOf(st), st.rates)
  {
    hide ValidEnv, Nested, InPackages, IsDependencyRate, Flatten, Topological, Hopeless;
    AncestorsOfAll(e);
    OrderIsFlat(st);
    FinalOrder(e, st);
    forall t, a | t in st.rates && a in e.anc[t] ensures a in st.rates && st.rates[t] <= st.rates[a] {
      assert t in Elements(Order(st));
      RatesFall(e, Order(st), st.rates, t, a);
      assert a in Elements(Order(st));
    }
  }

  lemma OrderIsFlat(st: State)
    ensures Order(st) == Flatten(BlocksOf(st))
  {
  }
}
