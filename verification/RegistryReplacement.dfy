/** Why no modelled alias may be preloaded ahead of a source that can load: such an alias is replaced. */
module RegistryReplacement {
  import opened Wrappers
  import opened Registry
  import opened RegistryLaws

  ghost predicate Reaches(setup: Setup, s: System, s': System) {
    exists actions :: Run(setup, s, actions) == s'
  }

  lemma {:induction false} ReachesItself(setup: Setup, s: System)
    ensures Reaches(setup, s, s)
  {
    assert Run(setup, s, []) == s;
  }

  lemma {:induction false} ReachesAfter(setup: Setup, s: System, a: Action, s': System)
    requires Reaches(setup, Step(setup, s, a), s')
    ensures Reaches(setup, s, s')
  {
    hide Step;
    var actions :| Run(setup, Step(setup, s, a), actions) == s';
    assert ([a] + actions)[0] == a && ([a] + actions)[1..] == actions;
    assert Run(setup, s, [a] + actions) == s';
  }

  lemma {:induction false} ReachesFurther(setup: Setup, a: System, b: System, c: System)
    requires Reaches(setup, a, b) && Reaches(setup, b, c)
    ensures Reaches(setup, a, c)
  {
    var x :| Run(setup, a, x) == b;
    var y :| Run(setup, b, y) == c;
    RunSplits(setup, a, x, y);
    assert Run(setup, a, x + y) == c;
  }

  lemma {:induction false} RunSplits(setup: Setup, s: System, a: seq<Action>, b: seq<Action>)
    ensures Run(setup, s, a + b) == Run(setup, Run(setup, s, a), b)
    decreases |a|
  {
    hide Step;
    if a == [] {
      assert a + b == b;
    } else {
      assert (a + b)[0] == a[0] && (a + b)[1..] == a[1..] + b;
      RunSplits(setup, Step(setup, s, a[0]), a[1..], b);
    }
  }

  // ---------------------------------------------------------------- one call with nobody else inside

  /** Call `k` for `code` stands at `pc`, and no other call is inside the load lock. */
  ghost predicate At(s: System, k: nat, code: Code, pc: Pc) {
    && k < |s.calls| && s.calls[k].code == code && s.calls[k].pc == pc
    && s.holder == if Holding(pc) then Some(k) else None
  }

  ghost predicate OthersKept(s: System, s': System, k: nat) {
    |s'.calls| == |s.calls| && forall j :: 0 <= j < |s.calls| && j != k ==> s'.calls[j] == s.calls[j]
  }

  /** The next step of call `k`, every await succeeding. */
  function Next(k: nat, alias: Code): Action {
    Advance(k, Choice(true, "", alias))
  }

  lemma {:induction false} OneStep(setup: Setup, s: System, k: nat, code: Code, pc: Pc, alias: Code) returns (s': System)
    requires At(s, k, code, pc) && Holding(pc)
    ensures var e := CallStep(setup, s.connections, s.next, s.published, code, pc, Choice(true, "", alias));
            && s' == Step(setup, s, Next(k, alias)) && Reaches(setup, s, s') && OthersKept(s, s', k)
            && s'.connections == e.connections && s'.next == e.next && At(s', k, code, e.pc)
  {
    hide CallStep, Reaches;
    s' := Step(setup, s, Next(k, alias));
    ReachesItself(setup, s');
    ReachesAfter(setup, s, Next(k, alias), s');
  }

  /** A call that finds nothing cached takes the lock. */
  lemma {:induction false} TakesLock(setup: Setup, s: System, k: nat, code: Code) returns (s': System)
    requires At(s, k, code, Start) && Cached(setup, s.connections, code).None?
    ensures Reaches(setup, s, s') && OthersKept(s, s', k) && At(s', k, code, Locked)
    ensures s'.connections == s.connections && s'.next == s.next
  {
    hide Cached, Reaches;
    var s1 := Step(setup, s, Next(k, code));
    assert At(s1, k, code, Waiting) && s1.connections == s.connections && s1.next == s.next;
    s' := Step(setup, s1, Next(k, code));
    ReachesItself(setup, s');
    ReachesAfter(setup, s1, Next(k, code), s');
    ReachesAfter(setup, s, Next(k, code), s');
  }

  /** A spawned call that finds a connection cached ends with it. */
  lemma {:induction false} FindsCached(setup: Setup, s: System, code: Code) returns (s': System)
    requires s.holder == None && Cached(setup, s.connections, code).Some?
    ensures Reaches(setup, s, s') && |s'.calls| == |s.calls| + 1 && s'.holder == None
    ensures s'.connections == s.connections && s'.next == s.next
    ensures forall j :: 0 <= j < |s.calls| ==> s'.calls[j] == s.calls[j]
    ensures s'.calls[|s.calls|].code == code && s'.calls[|s.calls|].pc == Done(Cached(setup, s.connections, code).value)
  {
    hide Cached, Reaches;
    var s1 := Step(setup, s, Spawn(code));
    s' := Step(setup, s1, Next(|s.calls|, code));
    ReachesItself(setup, s');
    ReachesAfter(setup, s1, Next(|s.calls|, code), s');
    ReachesAfter(setup, s, Spawn(code), s');
  }

  // ---------------------------------------------------------------- loading a source

  /** What is still to be derived. */
  ghost function Missing(setup: Setup, source: Code, derived: map<Code, Connection>): set<Code> {
    setup.ModelledAliasesOf(source) - derived.Keys
  }

  ghost predicate DerivedFrom(setup: Setup, source: Code, derived: map<Code, Connection>, first: nat) {
    derived.Keys <= setup.ModelledAliasesOf(source) && forall a :: a in derived ==> first <= derived[a].db
  }

  lemma {:induction false} DerivesOne(setup: Setup, s: System, k: nat, source: Code, con: Connection,
                                      derived: map<Code, Connection>, alias: Code, first: nat)
    returns (s': System, derived': map<Code, Connection>)
    requires At(s, k, source, Derive(con, derived)) && setup.SourceOf(source) == source && first <= s.next
    requires DerivedFrom(setup, source, derived, first) && alias in Missing(setup, source, derived)
    ensures Reaches(setup, s, s') && OthersKept(s, s', k) && At(s', k, source, Derive(con, derived'))
    ensures s'.connections == s.connections && s'.next == s.next + 1
    ensures DerivedFrom(setup, source, derived', first)
    ensures Missing(setup, source, derived') == Missing(setup, source, derived) - {alias}
  {
    hide Reaches, OthersKept, At;
    s' := OneStep(setup, s, k, source, Derive(con, derived), alias);
    derived' := derived[alias := Connection(s.next, alias, con.url)];
  }

  lemma {:induction false} DerivationEnds(setup: Setup, s: System, k: nat, source: Code, con: Connection,
                                          derived: map<Code, Connection>, first: nat)
    returns (s': System)
    requires At(s, k, source, Derive(con, derived)) && setup.SourceOf(source) == source
    requires DerivedFrom(setup, source, derived, first) && Missing(setup, source, derived) == {}
    ensures Reaches(setup, s, s') && OthersKept(s, s', k) && At(s', k, source, PublishSource(con, derived))
    ensures s'.connections == s.connections && s'.next == s.next && derived.Keys == setup.ModelledAliasesOf(source)
  {
    hide Reaches, OthersKept, At;
    assert forall a :: a in setup.ModelledAliasesOf(source) && a !in derived.Keys ==> a in Missing(setup, source, derived);
    s' := OneStep(setup, s, k, source, Derive(con, derived), source);
  }

  /** One connection after the other is derived, for every modelled alias of the source. */
  lemma {:induction false} DerivesAll(setup: Setup, s: System, k: nat, source: Code, con: Connection,
                                      derived: map<Code, Connection>, first: nat)
    returns (s': System, derived': map<Code, Connection>)
    requires At(s, k, source, Derive(con, derived)) && setup.SourceOf(source) == source && first <= s.next
    requires DerivedFrom(setup, source, derived, first)
    ensures Reaches(setup, s, s') && OthersKept(s, s', k) && At(s', k, source, PublishSource(con, derived'))
    ensures s'.connections == s.connections && s'.next >= s.next
    ensures derived'.Keys == setup.ModelledAliasesOf(source) && DerivedFrom(setup, source, derived', first)
    decreases |Missing(setup, source, derived)|
  {
    hide Reaches, At, DerivedFrom, Missing, CallStep;
    if Missing(setup, source, derived) == {} {
      derived' := derived;
      s' := DerivationEnds(setup, s, k, source, con, derived, first);
    } else {
      var alias :| alias in Missing(setup, source, derived);
      var s1, more := DerivesOne(setup, s, k, source, con, derived, alias, first);
      s', derived' := DerivesAll(setup, s1, k, source, con, more, first);
      ReachesFurther(setup, s, s1, s');
    }
  }

  /** One alias after the other is published or dropped. */
  lemma {:induction false} PublishesAll(setup: Setup, s: System, k: nat, source: Code, con: Connection,
                                        derived: map<Code, Connection>, left: set<Code>)
    returns (s': System)
    requires At(s, k, source, PublishAliases(con, derived, left)) && setup.SourceOf(source) == source
    requires forall a :: a in derived && a !in left ==> a in s.connections && s.connections[a] == derived[a]
    ensures Reaches(setup, s, s') && OthersKept(s, s', k) && At(s', k, source, Deliver(con))
    ensures forall a :: a in derived ==> a in s'.connections && s'.connections[a] == derived[a]
    decreases |left|
  {
    hide Reaches;
    if left == {} {
      s' := OneStep(setup, s, k, source, PublishAliases(con, derived, left), source);
    } else {
      var alias :| alias in left;
      var s1 := OneStep(setup, s, k, source, PublishAliases(con, derived, left), alias);
      s' := PublishesAll(setup, s1, k, source, con, derived, left - {alias});
      ReachesFurther(setup, s, s1, s');
    }
  }

  ghost predicate CanLoad(setup: Setup, s: System, source: Code) {
    && !setup.IsAlias(source) && source !in s.connections && source != BASE
    && BASE in s.connections && setup.Modelled(source)
  }

  lemma {:induction false} ReachesConnect(setup: Setup, s: System, k: nat, source: Code) returns (s': System)
    requires At(s, k, source, Locked) && CanLoad(setup, s, source)
    ensures Reaches(setup, s, s') && OthersKept(s, s', k)
    ensures s'.connections == s.connections && s'.next == s.next + 1
    ensures At(s', k, source, Derive(Connection(s.next, source, Some("")), map[]))
  {
    hide Reaches;
    var s1 := OneStep(setup, s, k, source, Locked, source);
    var s2 := OneStep(setup, s1, k, source, Query, source);
    s' := OneStep(setup, s2, k, source, Connect, source);
    ReachesFurther(setup, s1, s2, s');
    ReachesFurther(setup, s, s1, s');
  }

  lemma {:induction false} DerivesSource(setup: Setup, s: System, k: nat, source: Code)
    returns (s': System, con: Connection, derived: map<Code, Connection>)
    requires At(s, k, source, Start) && CanLoad(setup, s, source)
    ensures Reaches(setup, s, s') && OthersKept(s, s', k) && At(s', k, source, PublishSource(con, derived))
    ensures derived.Keys == setup.ModelledAliasesOf(source) && DerivedFrom(setup, source, derived, s.next)
  {
    hide Reaches, CallStep, CanLoad, At, Cached;
    con := Connection(s.next, source, Some(""));
    NotYetCached(setup, s, source);
    var s1 := TakesLock(setup, s, k, source);
    CanStillLoad(setup, s, s1, source);
    var s2 := ReachesConnect(setup, s1, k, source);
    s', derived := DerivesAll(setup, s2, k, source, con, map[], s.next);
    ReachesFurther(setup, s, s1, s2);
    ReachesFurther(setup, s, s2, s');
  }

  lemma {:induction false} PublishesSource(setup: Setup, s: System, k: nat, source: Code, con: Connection,
                                           derived: map<Code, Connection>)
    returns (s': System)
    requires At(s, k, source, PublishSource(con, derived)) && derived.Keys == setup.ModelledAliasesOf(source)
    requires !setup.IsAlias(source)
    ensures Reaches(setup, s, s') && OthersKept(s, s', k) && s'.holder == None
    ensures forall a :: a in derived ==> a in s'.connections && s'.connections[a] == derived[a]
  {
    hide Reaches, CallStep;
    var s1 := OneStep(setup, s, k, source, PublishSource(con, derived), source);
    PublishesNext(setup, s, source, con, derived);
    var s2 := PublishesAll(setup, s1, k, source, con, derived, setup.AliasesOf(source));
    s' := OneStep(setup, s2, k, source, Deliver(con), source);
    DeliversSource(setup, s2, source, con);
    ReachesFurther(setup, s, s1, s2);
    ReachesFurther(setup, s, s2, s');
  }

  lemma {:induction false} LoadsSource(setup: Setup, s: System, k: nat, source: Code) returns (s': System)
    requires At(s, k, source, Start) && CanLoad(setup, s, source)
    ensures Reaches(setup, s, s') && OthersKept(s, s', k) && s'.holder == None
    ensures forall a :: a in setup.ModelledAliasesOf(source) ==> a in s'.connections && s.next <= s'.connections[a].db
  {
    hide Reaches, CanLoad, At, Cached;
    NotYetCached(setup, s, source);
    var s1, con, derived := DerivesSource(setup, s, k, source);
    s' := PublishesSource(setup, s1, k, source, con, derived);
    ReachesFurther(setup, s, s1, s');
  }

  lemma {:induction false} NotYetCached(setup: Setup, s: System, source: Code)
    requires CanLoad(setup, s, source)
    ensures Cached(setup, s.connections, source).None? && setup.SourceOf(source) == source && !setup.IsAlias(source)
  {
  }

  lemma {:induction false} CanStillLoad(setup: Setup, s: System, s': System, source: Code)
    requires CanLoad(setup, s, source) && s'.connections == s.connections
    ensures CanLoad(setup, s', source)
  {
  }

  lemma {:induction false} PublishesNext(setup: Setup, s: System, source: Code, con: Connection,
                                         derived: map<Code, Connection>)
    requires setup.SourceOf(source) == source && derived.Keys == setup.ModelledAliasesOf(source)
    ensures CallStep(setup, s.connections, s.next, s.published, source, PublishSource(con, derived),
                     Choice(true, "", source)).pc
         == PublishAliases(con, derived, setup.AliasesOf(source))
    ensures forall a :: a in derived ==> a in setup.AliasesOf(source)
  {
  }

  lemma {:induction false} DeliversSource(setup: Setup, s: System, source: Code, con: Connection)
    requires !setup.IsAlias(source)
    ensures var e := CallStep(setup, s.connections, s.next, s.published, source, Deliver(con), Choice(true, "", source));
            e.pc == Done(con) && e.connections == s.connections
  {
  }

  /** A base that is an alias of a registered source is made from that source's URL. */
  lemma {:induction false} RegistersBase(setup: Setup, s: System, k: nat) returns (s': System)
    requires At(s, k, BASE, Start) && BASE !in s.connections && setup.IsAlias(BASE)
    requires setup.SourceOf(BASE) in s.connections && s.connections[setup.SourceOf(BASE)].url.Some?
    ensures Reaches(setup, s, s') && OthersKept(s, s', k) && s'.holder == None
    ensures s'.connections.Keys == s.connections.Keys + {BASE} && s'.next >= s.next
  {
    hide Reaches;
    var con := s.connections[setup.SourceOf(BASE)];
    var s1 := TakesLock(setup, s, k, BASE);
    var s2 := OneStep(setup, s1, k, BASE, Locked, BASE);
    var s3 := OneStep(setup, s2, k, BASE, Deliver(con), BASE);
    s' := OneStep(setup, s3, k, BASE, BuildOwn(con), BASE);
    ReachesFurther(setup, s, s1, s2);
    ReachesFurther(setup, s, s2, s3);
    ReachesFurther(setup, s, s3, s');
  }

  // ---------------------------------------------------------------- the exact condition

  ghost predicate Misplaced(setup: Setup, initial: map<Code, Connection>, alias: Code) {
    && alias in initial && setup.IsAlias(alias) && setup.Modelled(alias)
    && setup.SourceOf(alias) !in initial && Loadable(setup, initial, setup.SourceOf(alias))
  }

  lemma {:induction false} SpawnsAt(setup: Setup, s: System, code: Code) returns (s': System)
    requires s.holder == None
    ensures s' == Step(setup, s, Spawn(code)) && At(s', |s.calls|, code, Start) && |s'.calls| == |s.calls| + 1
    ensures s'.connections == s.connections && s'.next == s.next && Reaches(setup, s, s')
    ensures forall j :: 0 <= j < |s.calls| ==> s'.calls[j] == s.calls[j]
  {
    hide Reaches;
    s' := Step(setup, s, Spawn(code));
    ReachesItself(setup, s');
    ReachesAfter(setup, s, Spawn(code), s');
  }

  /** The base is registered by a call, if need be. */
  lemma {:induction false} BaseGetsRegistered(setup: Setup, s: System) returns (s': System)
    requires s.holder == None && BaseReachable(setup, s.connections) && |s.calls| > 0
    ensures Reaches(setup, s, s') && s'.holder == None && |s'.calls| > 0 && s'.calls[0] == s.calls[0]
    ensures BASE in s'.connections && s'.connections.Keys <= s.connections.Keys + {BASE} && s'.next >= s.next
  {
    hide Reaches;
    if BASE in s.connections {
      s' := s;
      ReachesItself(setup, s);
    } else {
      var s1 := SpawnsAt(setup, s, BASE);
      s' := RegistersBase(setup, s1, |s.calls|);
      ReachesFurther(setup, s, s1, s');
    }
  }

  lemma {:induction false} MisplacedIsCached(setup: Setup, initial: map<Code, Connection>, alias: Code)
    requires Flat(setup.aliases) && Misplaced(setup, initial, alias)
    ensures Cached(setup, initial, alias) == Some(initial[alias])
    ensures BaseReachable(setup, initial) && !setup.IsAlias(setup.SourceOf(alias)) && setup.SourceOf(alias) != BASE
    ensures setup.Modelled(setup.SourceOf(alias)) && alias in setup.ModelledAliasesOf(setup.SourceOf(alias))
  {
  }

  /** A misplaced alias has one connection before its source loads, and another one afterwards. */
  lemma {:induction false} MisplacedIsReplaced(setup: Setup, initial: map<Code, Connection>, next: nat, alias: Code)
    requires Flat(setup.aliases) && Misplaced(setup, initial, alias)
    requires forall code :: code in initial ==> initial[code].db < next
    ensures exists actions :: !Agree(Run(setup, Initially(initial, next), actions))
  {
    hide Reaches, Cached, BaseReachable, Loadable, Run;
    MisplacedIsCached(setup, initial, alias);
    var s0 := Initially(initial, next);
    var s1 := FindsCached(setup, s0, alias);
    var s2 := BaseGetsRegistered(setup, s1);
    var source := setup.SourceOf(alias);
    var s3 := SpawnsAt(setup, s2, source);
    var s4 := LoadsSource(setup, s3, |s2.calls|, source);
    ModelledIsCached(setup, s4.connections, alias);
    var s5 := FindsCached(setup, s4, alias);
    ReachesFurther(setup, s0, s1, s2);
    ReachesFurther(setup, s0, s2, s3);
    ReachesFurther(setup, s0, s3, s4);
    ReachesFurther(setup, s0, s4, s5);
    assert s5.calls[0].pc == Done(initial[alias]) && s5.calls[|s4.calls|].pc == Done(s4.connections[alias]);
    assert !SameAnswer(s5.calls[0], s5.calls[|s4.calls|]);
    Witness(setup, s0, s5);
  }

  lemma {:induction false} ModelledIsCached(setup: Setup, connections: map<Code, Connection>, alias: Code)
    requires setup.Modelled(alias) && alias in connections
    ensures Cached(setup, connections, alias) == Some(connections[alias])
  {
  }

  lemma {:induction false} Witness(setup: Setup, s: System, s': System)
    requires Reaches(setup, s, s') && !Agree(s')
    ensures exists actions :: !Agree(Run(setup, s, actions))
  {
    hide Agree;
  }

  /** All calls for a code get the same connection in every run, if and only if no modelled alias was
      registered by hand ahead of a source that can be loaded. */
  lemma {:induction false} AgreementIff(setup: Setup, initial: map<Code, Connection>, next: nat)
    requires Flat(setup.aliases) && forall code :: code in initial ==> initial[code].db < next
    ensures (forall actions :: Agree(Run(setup, Initially(initial, next), actions))) <==> Preloaded(setup, initial)
  {
    hide Agree, Run, Loadable;
    if Preloaded(setup, initial) {
      forall actions ensures Agree(Run(setup, Initially(initial, next), actions)) {
        LazyLoading(setup, initial, next, actions);
      }
    } else {
      var alias :| && alias in initial && setup.IsAlias(alias) && setup.Modelled(alias)
                   && setup.SourceOf(alias) !in initial && Loadable(setup, initial, setup.SourceOf(alias));
      MisplacedIsReplaced(setup, initial, next, alias);
    }
  }
}
