/** Chains of call sites, the form in which reachability over calls is reported. */
module CallChains {
  import opened Types
  import opened Reach

  type SiteTest = CallSite -> bool

  function AnyCall(): SiteTest {
    _ => true
  }

  /** The hops, from callee to caller, of the sites that pass the test. */
  ghost function Hops(sites: seq<CallSite>, ok: SiteTest): Relation {
    set s | s in sites && ok(s) :: (s.callee, s.caller)
  }

  /** A call chain from `from` down to `to` in which every site passes the test. */
  ghost predicate Chain(sites: seq<CallSite>, ok: SiteTest, from: Fn, ss: seq<CallSite>, to: Fn)
    decreases |ss|
  {
    if |ss| == 0 then from == to
    else ss[0] in sites && ok(ss[0]) && ss[0].caller == from && Chain(sites, ok, ss[0].callee, ss[1..], to)
  }

  lemma {:induction false} ChainIsReachable(sites: seq<CallSite>, ok: SiteTest, init: set<Fn>, from: Fn,
                                            ss: seq<CallSite>, to: Fn)
    requires Chain(sites, ok, from, ss, to) && to in init
    ensures Reachable(Hops(sites, ok), init, from)
    decreases |ss|
  {
    if |ss| == 0 {
      StartIsReachable(Hops(sites, ok), init, from);
    } else {
      ChainIsReachable(sites, ok, init, ss[0].callee, ss[1..], to);
      StepIsReachable(Hops(sites, ok), init, ss[0].callee, from);
    }
  }

  lemma {:induction false} WithinHasCallChain(sites: seq<CallSite>, ok: SiteTest, init: set<Fn>, n: nat, from: Fn)
    returns (ss: seq<CallSite>, to: Fn)
    requires from in Within(Hops(sites, ok), init, n)
    ensures Chain(sites, ok, from, ss, to) && to in init && |ss| <= n
  {
    if n == 0 {
      ss, to := [], from;
    } else if from in Within(Hops(sites, ok), init, n - 1) {
      ss, to := WithinHasCallChain(sites, ok, init, n - 1, from);
    } else {
      var s :| s in sites && ok(s) && s.caller == from && s.callee in Within(Hops(sites, ok), init, n - 1);
      var rest;
      rest, to := WithinHasCallChain(sites, ok, init, n - 1, s.callee);
      ss := [s] + rest;
      assert ss[1..] == rest;
    }
  }

  /** Some call chain leads from `from` down to a function in `init`. */
  ghost predicate LeadsTo(sites: seq<CallSite>, ok: SiteTest, from: Fn, init: set<Fn>) {
    exists ss: seq<CallSite>, to: Fn :: Chain(sites, ok, from, ss, to) && to in init
  }

  /** Reachability over the hops is the existence of a call chain. */
  lemma {:induction false} ReachableIffChain(sites: seq<CallSite>, ok: SiteTest, init: set<Fn>, from: Fn)
    ensures Reachable(Hops(sites, ok), init, from) <==> LeadsTo(sites, ok, from, init)
  {
    if Reachable(Hops(sites, ok), init, from) {
      var m := ReachableAtSomeLevel(Hops(sites, ok), init, from);
      var ss, to := WithinHasCallChain(sites, ok, init, m, from);
    }
    if LeadsTo(sites, ok, from, init) {
      var ss: seq<CallSite>, to: Fn :| Chain(sites, ok, from, ss, to) && to in init;
      ChainIsReachable(sites, ok, init, from, ss, to);
    }
  }

  lemma {:induction false} ChainBySameTest(sites: seq<CallSite>, ok: SiteTest, other: SiteTest, from: Fn,
                                           ss: seq<CallSite>, to: Fn)
    requires forall s :: ok(s) <==> other(s)
    ensures Chain(sites, ok, from, ss, to) <==> Chain(sites, other, from, ss, to)
    decreases |ss|
  {
    if |ss| > 0 { ChainBySameTest(sites, ok, other, ss[0].callee, ss[1..], to); }
  }

  lemma {:induction false} ChainOneMore(sites: seq<CallSite>, ok: SiteTest, from: Fn, ss: seq<CallSite>, s: CallSite)
    requires Chain(sites, ok, from, ss, s.caller) && s in sites && ok(s)
    ensures Chain(sites, ok, from, ss + [s], s.callee)
    decreases |ss|
  {
    if |ss| == 0 {
      assert (ss + [s])[1..] == [];
    } else {
      ChainOneMore(sites, ok, ss[0].callee, ss[1..], s);
      assert (ss + [s])[1..] == ss[1..] + [s];
    }
  }

  // ----- From callers to callees

  /** The hops, from caller to callee, of all sites. */
  ghost function DownHops(sites: seq<CallSite>): Relation {
    set s | s in sites :: (s.caller, s.callee)
  }

  lemma {:induction false} DownChainIsReachable(sites: seq<CallSite>, ok: SiteTest, init: set<Fn>, from: Fn,
                                                ss: seq<CallSite>, to: Fn)
    requires Chain(sites, ok, from, ss, to) && Reachable(DownHops(sites), init, from)
    ensures Reachable(DownHops(sites), init, to)
    decreases |ss|
  {
    if |ss| > 0 {
      StepIsReachable(DownHops(sites), init, from, ss[0].callee);
      DownChainIsReachable(sites, ok, init, ss[0].callee, ss[1..], to);
    }
  }

  lemma {:induction false} WithinHasDownChain(sites: seq<CallSite>, ok: SiteTest, init: set<Fn>, n: nat, to: Fn)
    returns (from: Fn, ss: seq<CallSite>)
    requires to in Within(DownHops(sites), init, n) && forall s :: ok(s)
    ensures from in init && Chain(sites, ok, from, ss, to)
  {
    if n == 0 {
      from, ss := to, [];
    } else if to in Within(DownHops(sites), init, n - 1) {
      from, ss := WithinHasDownChain(sites, ok, init, n - 1, to);
    } else {
      var s :| s in sites && s.callee == to && s.caller in Within(DownHops(sites), init, n - 1);
      from, ss := WithinHasDownChain(sites, ok, init, n - 1, s.caller);
      ChainOneMore(sites, ok, from, ss, s);
      ss := ss + [s];
    }
  }

  /** A chain of calls leads from a function in `init` to `to`. */
  ghost predicate CalledFrom(sites: seq<CallSite>, ok: SiteTest, init: set<Fn>, to: Fn) {
    exists from: Fn, ss: seq<CallSite> :: from in init && Chain(sites, ok, from, ss, to)
  }

  /** What is reachable downwards is what a chain of calls leads to. */
  lemma {:induction false} ReachableIffCalled(sites: seq<CallSite>, ok: SiteTest, init: set<Fn>, to: Fn)
    requires forall s :: ok(s)
    ensures Reachable(DownHops(sites), init, to) <==> CalledFrom(sites, ok, init, to)
  {
    if Reachable(DownHops(sites), init, to) {
      var m := ReachableAtSomeLevel(DownHops(sites), init, to);
      var from, ss := WithinHasDownChain(sites, ok, init, m, to);
    }
    if CalledFrom(sites, ok, init, to) {
      var from: Fn, ss: seq<CallSite> :| from in init && Chain(sites, ok, from, ss, to);
      StartIsReachable(DownHops(sites), init, from);
      DownChainIsReachable(sites, ok, init, from, ss, to);
    }
  }
}
