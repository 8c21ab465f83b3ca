/** What every interleaving of lazy loads keeps. */
module RegistryLaws {
  import opened Wrappers
  import opened Registry

  /** The entry that a look-up of the code reads. */
  function ReadKey(setup: Setup, code: Code): Code {
    if setup.IsAlias(code) && !setup.Modelled(code) then setup.SourceOf(code) else code
  }

  /** A source that a call can load: it has models, it is not the base, and the base is or can be
      registered. */
  predicate Loadable(setup: Setup, initial: map<Code, Connection>, source: Code) {
    source != BASE && setup.Modelled(source) && BaseReachable(setup, initial)
  }

  /** The base is registered by hand, or is an alias of a source with a URL that is. */
  predicate BaseReachable(setup: Setup, initial: map<Code, Connection>) {
    || BASE in initial
    || (setup.IsAlias(BASE) && setup.SourceOf(BASE) in initial && initial[setup.SourceOf(BASE)].url.Some?)
  }

  /** No modelled alias is registered by hand ahead of a source that can be loaded. */
  ghost predicate Preloaded(setup: Setup, initial: map<Code, Connection>) {
    forall alias :: alias in initial && setup.IsAlias(alias) && setup.Modelled(alias) ==>
      setup.SourceOf(alias) in initial || !Loadable(setup, initial, setup.SourceOf(alias))
  }

  /** Entries of sources are neither changed nor removed; nor, if nothing was preloaded wrongly, those of
      modelled aliases. Entries of model-less aliases, which no look-up reads, may go. */
  ghost predicate Grows(setup: Setup, ok: bool, c: map<Code, Connection>, c': map<Code, Connection>) {
    forall key :: key in c && (!setup.IsAlias(key) || (ok && setup.Modelled(key))) ==> key in c' && c'[key] == c[key]
  }

  /** The code is an alias that has a connection of its own. */
  predicate OwnAlias(setup: Setup, code: Code) {
    setup.IsAlias(code) && setup.Modelled(code)
  }

  lemma {:induction false} CachedStays(setup: Setup, ok: bool, c: map<Code, Connection>, c': map<Code, Connection>,
                                       code: Code)
    requires Flat(setup.aliases) && Grows(setup, ok, c, c') && Cached(setup, c, code).Some?
    requires ok || !OwnAlias(setup, code)
    ensures Cached(setup, c', code) == Cached(setup, c, code)
  {
    assert !setup.IsAlias(ReadKey(setup, code)) || setup.Modelled(ReadKey(setup, code));
  }

  // ---------------------------------------------------------------- the invariant

  ghost predicate Distinct(codes: seq<Code>) {
    forall i, j :: 0 <= i < j < |codes| ==> codes[i] != codes[j]
  }

  /** A modelled alias is registered after its source and with the source's URL, or it was preloaded
      together with its source, or its source can never load. */
  ghost predicate AliasOk(setup: Setup, initial: map<Code, Connection>, connections: map<Code, Connection>, alias: Code)
    requires alias in connections
  {
    var source := setup.SourceOf(alias);
    || (source in connections && (alias !in initial ==> connections[alias].url == connections[source].url))
    || (alias in initial && !Loadable(setup, initial, source))
  }

  ghost predicate MapInv(setup: Setup, initial: map<Code, Connection>, connections: map<Code, Connection>,
                         published: seq<Code>)
  {
    var ok := Preloaded(setup, initial);
    && Grows(setup, ok, initial, connections)
    && Distinct(published)
    && (forall k :: 0 <= k < |published| ==> published[k] in connections && !setup.IsAlias(published[k]))
    && (BASE in connections ==> BaseReachable(setup, initial))
    && (forall key :: key in connections && !setup.IsAlias(key) && key !in initial ==> Loadable(setup, initial, key))
    && (ok ==> forall alias :: alias in connections && setup.IsAlias(alias) && setup.Modelled(alias) ==>
                 AliasOk(setup, initial, connections, alias))
  }

  ghost predicate DerivedOk(setup: Setup, con: Connection, derived: map<Code, Connection>, source: Code) {
    && derived.Keys <= setup.ModelledAliasesOf(source)
    && forall alias :: alias in derived ==> derived[alias].url == con.url
  }

  ghost predicate CallOk(setup: Setup, initial: map<Code, Connection>, connections: map<Code, Connection>, call: Call) {
    var source := setup.SourceOf(call.code);
    var ok := Preloaded(setup, initial);
    match call.pc
    case Start => !call.wrote
    case Waiting => !call.wrote
    case Locked => !call.wrote
    case Query => !call.wrote && source !in connections && source != BASE
    case Connect => !call.wrote && source !in connections && Loadable(setup, initial, source)
    case Derive(con, derived) =>
      && !call.wrote && source !in connections && Loadable(setup, initial, source)
      && DerivedOk(setup, con, derived, source)
    case PublishSource(con, derived) =>
      && !call.wrote && source !in connections && Loadable(setup, initial, source)
      && DerivedOk(setup, con, derived, source) && derived.Keys == setup.ModelledAliasesOf(source)
    case PublishAliases(con, derived, left) =>
      && source in connections && connections[source] == con && Loadable(setup, initial, source)
      && DerivedOk(setup, con, derived, source) && derived.Keys == setup.ModelledAliasesOf(source)
      && left <= setup.AliasesOf(source)
      && (forall alias :: alias in derived && alias !in left ==> alias in connections)
      && (ok ==> forall alias :: alias in derived && alias in left ==> alias !in connections)
    case Deliver(con) =>
      && source in connections && connections[source] == con
      && (call.wrote ==> forall alias :: alias in setup.ModelledAliasesOf(source) ==> alias in connections)
    case BuildOwn(con) =>
      && !call.wrote && source in connections && connections[source] == con
      && setup.IsAlias(call.code) && setup.Modelled(call.code) && call.code !in connections
    case Done(con) => ok || !OwnAlias(setup, call.code) ==> Cached(setup, connections, call.code) == Some(con)
    case Failed => !call.wrote
  }

  /** The lock's holder is exactly the call that is inside. */
  ghost predicate Exclusive(s: System) {
    && (s.holder.Some? ==> s.holder.value < |s.calls|)
    && forall k :: 0 <= k < |s.calls| ==> (Holding(s.calls[k].pc) <==> s.holder == Some(k))
  }

  ghost predicate Inv(setup: Setup, initial: map<Code, Connection>, s: System) {
    && MapInv(setup, initial, s.connections, s.published)
    && (forall k :: 0 <= k < |s.calls| ==> CallOk(setup, initial, s.connections, s.calls[k]))
    && Exclusive(s)
  }

  // ---------------------------------------------------------------- one step

  lemma {:induction false} OthersStay(setup: Setup, initial: map<Code, Connection>, c: map<Code, Connection>,
                                      c': map<Code, Connection>, call: Call)
    requires Flat(setup.aliases) && Grows(setup, Preloaded(setup, initial), c, c')
    requires CallOk(setup, initial, c, call) && !Holding(call.pc)
    ensures CallOk(setup, initial, c', call)
  {
    hide Grows, Preloaded, Cached, Loadable;
    if call.pc.Done? && (Preloaded(setup, initial) || !OwnAlias(setup, call.code)) {
      CachedStays(setup, Preloaded(setup, initial), c, c', call.code);
    }
  }

  /** Two steps write an entry of a source or of a modelled alias, and both add it. */
  lemma {:induction false} StepGrows(setup: Setup, initial: map<Code, Connection>, c: map<Code, Connection>, next: nat,
                                     published: seq<Code>, call: Call, choice: Choice)
    requires Flat(setup.aliases) && CallOk(setup, initial, c, call)
    ensures Grows(setup, Preloaded(setup, initial), c,
                  CallStep(setup, c, next, published, call.code, call.pc, choice).connections)
  {
    hide Preloaded, Loadable, Cached;
  }

  lemma {:induction false} GrowsFurther(setup: Setup, ok: bool, a: map<Code, Connection>, b: map<Code, Connection>,
                                        c: map<Code, Connection>)
    requires Grows(setup, ok, a, b) && Grows(setup, ok, b, c)
    ensures Grows(setup, ok, a, c)
  {
  }

  lemma {:induction false} PublishSourceKeepsMap(setup: Setup, initial: map<Code, Connection>, c: map<Code, Connection>,
                                                 published: seq<Code>, source: Code, con: Connection)
    requires Flat(setup.aliases) && MapInv(setup, initial, c, published)
    requires source !in c && Loadable(setup, initial, source) && !setup.IsAlias(source)
    ensures MapInv(setup, initial, c[source := con], published + [source])
  {
    hide Preloaded, BaseReachable;
    var c' := c[source := con];
    assert Grows(setup, Preloaded(setup, initial), c, c');
    GrowsFurther(setup, Preloaded(setup, initial), initial, c, c');
    assert forall k :: 0 <= k < |published| ==> published[k] != source;
    forall alias | alias in c' && setup.IsAlias(alias) && setup.Modelled(alias) && Preloaded(setup, initial)
      ensures AliasOk(setup, initial, c', alias)
    {
      assert AliasOk(setup, initial, c, alias);
    }
  }

  /** Registering a modelled alias whose source is there, with the source's URL. */
  lemma {:induction false} AddAliasKeepsMap(setup: Setup, initial: map<Code, Connection>, c: map<Code, Connection>,
                                            published: seq<Code>, alias: Code, con: Connection)
    requires Flat(setup.aliases) && MapInv(setup, initial, c, published)
    requires setup.IsAlias(alias) && setup.Modelled(alias)
    requires setup.SourceOf(alias) in c && con.url == c[setup.SourceOf(alias)].url
    requires Preloaded(setup, initial) ==> alias !in c
    requires alias == BASE ==> BaseReachable(setup, initial)
    ensures MapInv(setup, initial, c[alias := con], published)
  {
    hide Preloaded, Loadable, BaseReachable;
    var c' := c[alias := con];
    forall other | other in c' && setup.IsAlias(other) && setup.Modelled(other) && Preloaded(setup, initial)
      ensures AliasOk(setup, initial, c', other)
    {
      assert other != alias ==> AliasOk(setup, initial, c, other);
    }
  }

  lemma {:induction false} DropAliasKeepsMap(setup: Setup, initial: map<Code, Connection>, c: map<Code, Connection>,
                                             published: seq<Code>, alias: Code)
    requires Flat(setup.aliases) && MapInv(setup, initial, c, published)
    requires setup.IsAlias(alias) && !setup.Modelled(alias)
    ensures MapInv(setup, initial, c - {alias}, published)
  {
    hide Preloaded, Loadable, BaseReachable;
    var c' := c - {alias};
    forall other | other in c' && setup.IsAlias(other) && setup.Modelled(other) && Preloaded(setup, initial)
      ensures AliasOk(setup, initial, c', other)
    {
      assert AliasOk(setup, initial, c, other);
    }
  }

  /** A base that is an alias can be registered only where the base counts as reachable. */
  lemma {:induction false} OwnBaseIsReachable(setup: Setup, initial: map<Code, Connection>, c: map<Code, Connection>,
                                              published: seq<Code>)
    requires MapInv(setup, initial, c, published) && Flat(setup.aliases)
    requires setup.IsAlias(BASE) && setup.SourceOf(BASE) in c && c[setup.SourceOf(BASE)].url.Some?
    ensures BaseReachable(setup, initial)
  {
  }

  lemma {:induction false} StepKeepsMap(setup: Setup, initial: map<Code, Connection>, c: map<Code, Connection>,
                                        next: nat, published: seq<Code>, call: Call, choice: Choice)
    requires Flat(setup.aliases) && MapInv(setup, initial, c, published) && CallOk(setup, initial, c, call)
    ensures var e := CallStep(setup, c, next, published, call.code, call.pc, choice);
            MapInv(setup, initial, e.connections, e.published)
  {
    hide MapInv, Preloaded, Cached;
    var source := setup.SourceOf(call.code);
    match call.pc
    case PublishSource(con, derived) => PublishSourceKeepsMap(setup, initial, c, published, source, con);
    case PublishAliases(con, derived, left) =>
      if choice.alias in left {
        if choice.alias in derived {
          AddAliasKeepsMap(setup, initial, c, published, choice.alias, derived[choice.alias]);
        } else {
          DropAliasKeepsMap(setup, initial, c, published, choice.alias);
        }
      }
    case BuildOwn(con) =>
      if con.url.Some? && choice.ok {
        if call.code == BASE { OwnBaseIsReachable(setup, initial, c, published); }
        AddAliasKeepsMap(setup, initial, c, published, call.code, Connection(next, call.code, con.url));
      }
    case _ =>
  }

  lemma {:induction false} NoAliasAheadOfSource(setup: Setup, initial: map<Code, Connection>, c: map<Code, Connection>,
                                                published: seq<Code>, source: Code)
    requires MapInv(setup, initial, c, published) && source !in c && Loadable(setup, initial, source)
    ensures Preloaded(setup, initial) ==> forall alias :: alias in setup.ModelledAliasesOf(source) ==> alias !in c
  {
    hide Preloaded, Loadable, Grows;
  }

  lemma {:induction false} BaseIsReachable(setup: Setup, initial: map<Code, Connection>, c: map<Code, Connection>,
                                           published: seq<Code>)
    requires MapInv(setup, initial, c, published)
    ensures BASE in c ==> BaseReachable(setup, initial)
  {
    hide Preloaded, Loadable, Grows;
  }

  /** The call is in order after its step. */
  ghost predicate StaysOk(setup: Setup, initial: map<Code, Connection>, c: map<Code, Connection>, next: nat,
                          published: seq<Code>, call: Call, choice: Choice)
  {
    var e := CallStep(setup, c, next, published, call.code, call.pc, choice);
    CallOk(setup, initial, e.connections, call.(pc := e.pc, wrote := call.wrote || e.connections != c))
  }

  lemma {:induction false} LookUpStaysOk(setup: Setup, initial: map<Code, Connection>, c: map<Code, Connection>,
                                   next: nat, published: seq<Code>, call: Call, choice: Choice)
    requires CallOk(setup, initial, c, call) && (call.pc.Start? || call.pc.Locked?)
    ensures StaysOk(setup, initial, c, next, published, call, choice)
  {
    hide Preloaded, Loadable, DerivedOk;
  }

  lemma {:induction false} LoadStaysOk(setup: Setup, initial: map<Code, Connection>, c: map<Code, Connection>,
                                   next: nat, published: seq<Code>, call: Call, choice: Choice)
    requires CallOk(setup, initial, c, call) && (call.pc.Query? || call.pc.Connect? || call.pc.Derive?)
    requires BASE in c ==> BaseReachable(setup, initial)
    ensures StaysOk(setup, initial, c, next, published, call, choice)
  {
    hide Preloaded, BaseReachable, Cached;
  }

  lemma {:induction false} PublishSourceStaysOk(setup: Setup, initial: map<Code, Connection>, c: map<Code, Connection>,
                                   next: nat, published: seq<Code>, call: Call, choice: Choice)
    requires CallOk(setup, initial, c, call) && call.pc.PublishSource?
    requires Preloaded(setup, initial) ==>
               forall alias :: alias in setup.ModelledAliasesOf(setup.SourceOf(call.code)) ==> alias !in c
    requires Flat(setup.aliases)
    ensures StaysOk(setup, initial, c, next, published, call, choice)
  {
    hide Preloaded, Loadable, Cached;
  }

  lemma {:induction false} PublishAliasesStaysOk(setup: Setup, initial: map<Code, Connection>, c: map<Code, Connection>,
                                   next: nat, published: seq<Code>, call: Call, choice: Choice)
    requires CallOk(setup, initial, c, call) && call.pc.PublishAliases? && Flat(setup.aliases)
    ensures StaysOk(setup, initial, c, next, published, call, choice)
  {
    hide Preloaded, Loadable, Cached;
  }

  lemma {:induction false} DeliverStaysOk(setup: Setup, initial: map<Code, Connection>, c: map<Code, Connection>,
                                   next: nat, published: seq<Code>, call: Call, choice: Choice)
    requires CallOk(setup, initial, c, call) && (call.pc.Deliver? || call.pc.BuildOwn?) && Flat(setup.aliases)
    ensures StaysOk(setup, initial, c, next, published, call, choice)
  {
    hide Preloaded, Loadable, DerivedOk;
  }

  lemma {:induction false} EndedStaysOk(setup: Setup, initial: map<Code, Connection>, c: map<Code, Connection>,
                                   next: nat, published: seq<Code>, call: Call, choice: Choice)
    requires CallOk(setup, initial, c, call) && (call.pc.Done? || call.pc.Failed?)
    ensures StaysOk(setup, initial, c, next, published, call, choice)
  {
    hide Preloaded, Loadable, Cached, DerivedOk;
  }

  lemma {:induction false} StepKeepsCall(setup: Setup, initial: map<Code, Connection>, c: map<Code, Connection>,
                                         next: nat, published: seq<Code>, call: Call, choice: Choice)
    requires Flat(setup.aliases) && MapInv(setup, initial, c, published)
    requires CallOk(setup, initial, c, call) && !call.pc.Waiting?
    ensures StaysOk(setup, initial, c, next, published, call, choice)
  {
    hide MapInv, Preloaded, Loadable, DerivedOk, StaysOk, CallStep;
    match call.pc
    case Start => LookUpStaysOk(setup, initial, c, next, published, call, choice);
    case Locked => LookUpStaysOk(setup, initial, c, next, published, call, choice);
    case PublishSource(_, _) =>
      NoAliasAheadOfSource(setup, initial, c, published, setup.SourceOf(call.code));
      PublishSourceStaysOk(setup, initial, c, next, published, call, choice);
    case PublishAliases(_, _, _) => PublishAliasesStaysOk(setup, initial, c, next, published, call, choice);
    case Deliver(_) => DeliverStaysOk(setup, initial, c, next, published, call, choice);
    case BuildOwn(_) => DeliverStaysOk(setup, initial, c, next, published, call, choice);
    case Done(_) => EndedStaysOk(setup, initial, c, next, published, call, choice);
    case Failed => EndedStaysOk(setup, initial, c, next, published, call, choice);
    case _ =>
      BaseIsReachable(setup, initial, c, published);
      LoadStaysOk(setup, initial, c, next, published, call, choice);
  }

  lemma {:induction false} StepKeepsExclusive(setup: Setup, s: System, a: Action)
    requires Exclusive(s)
    ensures Exclusive(Step(setup, s, a))
  {
    hide CallStep;
    if a.Advance? && a.call < |s.calls| && !s.calls[a.call].pc.Waiting? && !Holding(s.calls[a.call].pc) {
      StaysOutside(setup, s.connections, s.next, s.published, s.calls[a.call].code, s.calls[a.call].pc, a.choice);
    }
  }

  lemma {:induction false} StaysOutside(setup: Setup, c: map<Code, Connection>, next: nat, published: seq<Code>,
                                        code: Code, pc: Pc, choice: Choice)
    requires !pc.Waiting? && !Holding(pc)
    ensures !Holding(CallStep(setup, c, next, published, code, pc, choice).pc)
  {
  }

  /** A call that advances, waits or is cancelled keeps the others as they were. */
  lemma {:induction false} AdvanceKeeps(setup: Setup, initial: map<Code, Connection>, s: System, k: nat, choice: Choice)
    requires Flat(setup.aliases) && Inv(setup, initial, s) && k < |s.calls| && !s.calls[k].pc.Waiting?
    ensures Inv(setup, initial, Step(setup, s, Advance(k, choice)))
  {
    hide CallStep, CallOk, MapInv, Grows, Holding, Preloaded;
    var call := s.calls[k];
    var s' := Step(setup, s, Advance(k, choice));
    StepKeepsMap(setup, initial, s.connections, s.next, s.published, call, choice);
    StepKeepsCall(setup, initial, s.connections, s.next, s.published, call, choice);
    StepKeepsExclusive(setup, s, Advance(k, choice));
    forall j | 0 <= j < |s.calls| && j != k ensures CallOk(setup, initial, s'.connections, s'.calls[j]) {
      OtherCallStays(setup, initial, s, k, j, choice);
    }
  }

  lemma {:induction false} OtherCallStays(setup: Setup, initial: map<Code, Connection>, s: System, k: nat, j: nat,
                                          choice: Choice)
    requires Flat(setup.aliases) && Exclusive(s) && k < |s.calls| && j < |s.calls| && j != k
    requires CallOk(setup, initial, s.connections, s.calls[k]) && CallOk(setup, initial, s.connections, s.calls[j])
    requires !s.calls[k].pc.Waiting?
    ensures CallOk(setup, initial, Step(setup, s, Advance(k, choice)).connections, s.calls[j])
  {
    hide CallOk, Grows, CallStep, Preloaded;
    var call := s.calls[k];
    StepGrows(setup, initial, s.connections, s.next, s.published, call, choice);
    if Holding(s.calls[j].pc) {
      OnlyHoldersWrite(setup, s.connections, s.next, s.published, call, choice);
    } else {
      OthersStay(setup, initial, s.connections, Step(setup, s, Advance(k, choice)).connections, s.calls[j]);
    }
  }

  lemma {:induction false} OnlyHoldersWrite(setup: Setup, c: map<Code, Connection>, next: nat, published: seq<Code>,
                                            call: Call, choice: Choice)
    requires !Holding(call.pc)
    ensures CallStep(setup, c, next, published, call.code, call.pc, choice).connections == c
  {
  }

  lemma {:induction false} StepKeeps(setup: Setup, initial: map<Code, Connection>, s: System, a: Action)
    requires Flat(setup.aliases) && Inv(setup, initial, s)
    ensures Inv(setup, initial, Step(setup, s, a))
  {
    hide CallStep, MapInv, Cached, Grows, Preloaded, Loadable;
    if a.Advance? && a.call < |s.calls| && !s.calls[a.call].pc.Waiting? {
      AdvanceKeeps(setup, initial, s, a.call, a.choice);
    } else {
      StepKeepsExclusive(setup, s, a);
    }
  }

  // ---------------------------------------------------------------- every interleaving

  function Initially(initial: map<Code, Connection>, next: nat): System {
    System(initial, next, [], None, [])
  }

  lemma {:induction false} InitialInv(setup: Setup, initial: map<Code, Connection>, next: nat)
    ensures Inv(setup, initial, Initially(initial, next))
  {
    hide Loadable;
  }

  lemma {:induction false} RunKeeps(setup: Setup, initial: map<Code, Connection>, s: System, actions: seq<Action>)
    requires Flat(setup.aliases) && Inv(setup, initial, s)
    ensures Inv(setup, initial, Run(setup, s, actions))
    decreases |actions|
  {
    hide Inv, Step;
    if actions != [] {
      StepKeeps(setup, initial, s, actions[0]);
      RunKeeps(setup, initial, Step(setup, s, actions[0]), actions[1..]);
    }
  }

  predicate SameAnswer(a: Call, b: Call) {
    a.code == b.code && a.pc.Done? && b.pc.Done? ==> a.pc.con == b.pc.con
  }

  /** All finished calls for a code hold the same connection. */
  ghost predicate Agree(s: System) {
    forall i, j :: 0 <= i < |s.calls| && 0 <= j < |s.calls| ==> SameAnswer(s.calls[i], s.calls[j])
  }

  /** Over every interleaving, failure and cancellation each source is published at most once, and a
      call that fails has changed nothing; all calls for a code get the same connection, unless the code
      is a modelled alias and one was preloaded ahead of a source that can load. */
  lemma {:induction false} LazyLoading(setup: Setup, initial: map<Code, Connection>, next: nat, actions: seq<Action>)
    requires Flat(setup.aliases)
    ensures var s := Run(setup, Initially(initial, next), actions);
            && Distinct(s.published)
            && (forall i :: 0 <= i < |s.calls| && s.calls[i].pc.Failed? ==> !s.calls[i].wrote)
            && (Preloaded(setup, initial) ==> Agree(s))
            && (forall i, j :: 0 <= i < |s.calls| && 0 <= j < |s.calls| && !OwnAlias(setup, s.calls[i].code) ==>
                  SameAnswer(s.calls[i], s.calls[j]))
  {
    hide Run, Step, Preloaded, Cached, Loadable, OwnAlias;
    InitialInv(setup, initial, next);
    RunKeeps(setup, initial, Initially(initial, next), actions);
    var s := Run(setup, Initially(initial, next), actions);
    forall i | 0 <= i < |s.calls|
      ensures s.calls[i].pc.Done? && (Preloaded(setup, initial) || !OwnAlias(setup, s.calls[i].code)) ==>
                Cached(setup, s.connections, s.calls[i].code) == Some(s.calls[i].pc.con)
      ensures s.calls[i].pc.Failed? ==> !s.calls[i].wrote
    {
      assert CallOk(setup, initial, s.connections, s.calls[i]);
    }
  }

  /** What a finished call holds: a model-less alias shares its source's database; a modelled one that
      was not preloaded has a connection made from its source's URL, if none was preloaded ahead of a
      source that can load. */
  lemma {:induction false} AliasesFollowSource(setup: Setup, initial: map<Code, Connection>, next: nat,
                                               actions: seq<Action>, i: nat)
    requires Flat(setup.aliases)
    requires var s := Run(setup, Initially(initial, next), actions);
             i < |s.calls| && s.calls[i].pc.Done? && setup.IsAlias(s.calls[i].code)
    ensures var s := Run(setup, Initially(initial, next), actions);
            var code, con, source := s.calls[i].code, s.calls[i].pc.con, setup.SourceOf(s.calls[i].code);
            && (!setup.Modelled(code) ==>
                  source in s.connections && con.db == s.connections[source].db && con.url == s.connections[source].url)
            && (setup.Modelled(code) && code !in initial && Preloaded(setup, initial) ==>
                  source in s.connections && con.url == s.connections[source].url)
  {
    hide Run, Step, Loadable, Preloaded, Grows;
    InitialInv(setup, initial, next);
    RunKeeps(setup, initial, Initially(initial, next), actions);
    var s := Run(setup, Initially(initial, next), actions);
    assert CallOk(setup, initial, s.connections, s.calls[i]);
    if s.calls[i].code in s.connections && setup.Modelled(s.calls[i].code) && Preloaded(setup, initial) {
      assert AliasOk(setup, initial, s.connections, s.calls[i].code);
    }
  }
}
