/** What the registry hands out bears the code it was asked for. */
module RegistryAnswers {
  import opened Wrappers
  import opened Registry
  import opened RegistryLaws

  /** Every entry bears its key as code. */
  ghost predicate KeysAreCodes(connections: map<Code, Connection>) {
    forall key :: key in connections ==> connections[key].code == key
  }

  /** The connections that a call holds bear their codes, and its answer bears the code asked for. */
  ghost predicate BearsCodes(setup: Setup, call: Call) {
    var source := setup.SourceOf(call.code);
    match call.pc
    case Derive(con, derived) => con.code == source && KeysAreCodes(derived)
    case PublishSource(con, derived) => con.code == source && KeysAreCodes(derived)
    case PublishAliases(con, derived, _) => con.code == source && KeysAreCodes(derived)
    case Deliver(con) => con.code == source
    case Done(con) => con.code == call.code
    case _ => true
  }

  ghost predicate AllBearCodes(setup: Setup, s: System) {
    KeysAreCodes(s.connections) && forall i :: 0 <= i < |s.calls| ==> BearsCodes(setup, s.calls[i])
  }

  lemma {:induction false} CallBearsCodes(setup: Setup, s: System, call: Call, choice: Choice)
    requires KeysAreCodes(s.connections) && BearsCodes(setup, call)
    ensures var e := CallStep(setup, s.connections, s.next, s.published, call.code, call.pc, choice);
            && KeysAreCodes(e.connections)
            && forall wrote :: BearsCodes(setup, call.(pc := e.pc, wrote := wrote))
  {
  }

  lemma {:induction false} StepBearsCodes(setup: Setup, s: System, a: Action)
    requires AllBearCodes(setup, s)
    ensures AllBearCodes(setup, Step(setup, s, a))
  {
    hide CallStep, KeysAreCodes;
    if a.Advance? && a.call < |s.calls| { CallBearsCodes(setup, s, s.calls[a.call], a.choice); }
  }

  lemma {:induction false} RunBearsCodes(setup: Setup, s: System, actions: seq<Action>)
    requires AllBearCodes(setup, s)
    ensures AllBearCodes(setup, Run(setup, s, actions))
    decreases |actions|
  {
    hide AllBearCodes, Step;
    if actions != [] {
      StepBearsCodes(setup, s, actions[0]);
      RunBearsCodes(setup, Step(setup, s, actions[0]), actions[1..]);
    }
  }

  /** If what was registered up front bears its codes, then in every run every entry does, every answer
      bears the code asked for, and the answer for an alias without models is its source's entry with
      nothing but the code changed. */
  lemma {:induction false} AnswersBearCodes(setup: Setup, initial: map<Code, Connection>, next: nat, actions: seq<Action>)
    requires Flat(setup.aliases) && forall key :: key in initial ==> initial[key].code == key
    ensures var s := Run(setup, Initially(initial, next), actions);
            && (forall key :: key in s.connections ==> s.connections[key].code == key)
            && forall i :: 0 <= i < |s.calls| && s.calls[i].pc.Done? ==>
                 var code, con := s.calls[i].code, s.calls[i].pc.con;
                 && con.code == code
                 && (code in setup.aliases && code !in setup.models && code != "base" ==>
                       && setup.aliases[code] in s.connections
                       && con == s.connections[setup.aliases[code]].(code := code))
  {
    hide Run, Step, Preloaded, Loadable;
    RunBearsCodes(setup, Initially(initial, next), actions);
    var s := Run(setup, Initially(initial, next), actions);
    forall i | 0 <= i < |s.calls| && s.calls[i].pc.Done?
      ensures var code, con := s.calls[i].code, s.calls[i].pc.con;
              && con.code == code
              && (code in setup.aliases && code !in setup.models && code != "base" ==>
                    && setup.aliases[code] in s.connections
                    && con == s.connections[setup.aliases[code]].(code := code))
    {
      assert BearsCodes(setup, s.calls[i]);
      if setup.IsAlias(s.calls[i].code) { AliasesFollowSource(setup, initial, next, actions, i); }
    }
  }

  // ---------------------------------------------------------------- entries of model-less aliases

  /** The call is about to remove the entry of this alias. */
  predicate Sweeps(setup: Setup, call: Call, source: Code, alias: Code) {
    call.pc.PublishAliases? && setup.SourceOf(call.code) == source && alias in call.pc.left
  }

  predicate ModelLess(setup: Setup, source: Code, alias: Code) {
    alias in setup.aliases && setup.aliases[alias] == source && !setup.Modelled(alias)
  }

  /** Once a source has been published, an alias of it without models has no entry of its own left, unless a
      call is about to remove it. */
  ghost predicate Swept(setup: Setup, s: System) {
    forall source, alias :: source in s.published && ModelLess(setup, source, alias) && alias in s.connections ==>
      exists i :: 0 <= i < |s.calls| && Sweeps(setup, s.calls[i], source, alias)
  }

  lemma {:induction false} CallSweeps(setup: Setup, initial: map<Code, Connection>, s: System, call: Call, choice: Choice,
                                      source: Code, alias: Code)
    requires Flat(setup.aliases) && CallOk(setup, initial, s.connections, call) && ModelLess(setup, source, alias)
    ensures var e := CallStep(setup, s.connections, s.next, s.published, call.code, call.pc, choice);
            && (source in e.published && alias in e.connections ==>
                  (source in s.published && alias in s.connections) || Sweeps(setup, call.(pc := e.pc), source, alias))
            && (Sweeps(setup, call, source, alias) && alias in e.connections ==>
                  Sweeps(setup, call.(pc := e.pc), source, alias))
  {
    hide Preloaded, Loadable, Cached;
  }

  lemma {:induction false} StepSweeps(setup: Setup, initial: map<Code, Connection>, s: System, a: Action)
    requires Flat(setup.aliases) && Inv(setup, initial, s) && Swept(setup, s)
    ensures Swept(setup, Step(setup, s, a))
  {
    hide CallStep, MapInv, CallOk, Exclusive, ModelLess;
    var s' := Step(setup, s, a);
    forall source, alias | source in s'.published && ModelLess(setup, source, alias) && alias in s'.connections
      ensures exists i :: 0 <= i < |s'.calls| && Sweeps(setup, s'.calls[i], source, alias)
    {
      if a.Advance? && a.call < |s.calls| && !s.calls[a.call].pc.Waiting? {
        var call := s.calls[a.call];
        CallSweeps(setup, initial, s, call, a.choice, source, alias);
        if source in s.published && alias in s.connections {
          var i :| 0 <= i < |s.calls| && Sweeps(setup, s.calls[i], source, alias);
          assert i != a.call ==> s'.calls[i] == s.calls[i];
          assert Sweeps(setup, s'.calls[i], source, alias);
        } else {
          assert Sweeps(setup, s'.calls[a.call], source, alias);
        }
      } else {
        var i :| 0 <= i < |s.calls| && Sweeps(setup, s.calls[i], source, alias);
        assert s'.calls[i] == s.calls[i];
      }
    }
  }

  lemma {:induction false} RunSweeps(setup: Setup, initial: map<Code, Connection>, s: System, actions: seq<Action>)
    requires Flat(setup.aliases) && Inv(setup, initial, s) && Swept(setup, s)
    ensures Inv(setup, initial, Run(setup, s, actions)) && Swept(setup, Run(setup, s, actions))
    decreases |actions|
  {
    hide Inv, Step, Swept;
    if actions != [] {
      StepKeeps(setup, initial, s, actions[0]);
      StepSweeps(setup, initial, s, actions[0]);
      RunSweeps(setup, initial, Step(setup, s, actions[0]), actions[1..]);
    }
  }

  /** In every run, whenever no call is loading, the aliases without models of each source that was loaded have
      no entry of their own, whatever was registered for them before. */
  lemma {:induction false} PublishedIsSwept(setup: Setup, initial: map<Code, Connection>, next: nat, actions: seq<Action>,
                                            source: Code, alias: Code)
    requires Flat(setup.aliases)
    ensures var s := Run(setup, Initially(initial, next), actions);
            s.holder == None && source in s.published && ModelLess(setup, source, alias) ==> alias !in s.connections
  {
    hide Run, Step, MapInv, CallOk, ModelLess;
    InitialInv(setup, initial, next);
    RunSweeps(setup, initial, Initially(initial, next), actions);
  }
}
