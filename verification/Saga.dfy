/**
 * Adding a variant across two services: create it in the catalog, register its
 * SKU in the inventory, and delete it again if the registration fails.  Any call
 * may be refused; it may be answered with a server error, or not at all, before or
 * after the service acted; and a service may act on it late.
 */
module Saga {
  import opened Wrappers

  /** The catalog's variants by SKU, each with the saga that created it, and the SKUs that have a stock row. */
  datatype World = World(catalog: map<string, Option<nat>>, stock: set<string>)

  /**
   * How one call fares.  A refusal (a 4xx) means that the service did not act.  A
   * server error means nothing: the catalog inserts the variant in a statement of
   * its own, and answers 500 when reading it back fails.
   */
  datatype Net = Clean | Refused | Errored(applied: bool) | Lost(applied: bool)

  predicate Reaches(net: Net) {
    net == Clean || net == Errored(true) || net == Lost(true)
  }

  /** The caller cannot tell what became of the call. */
  predicate Unclear(net: Net) {
    net.Errored? || net.Lost?
  }

  // ---- The three calls ----

  function AddVariant(w: World, t: nat, sku: string, net: Net): World {
    if Reaches(net) && sku !in w.catalog then w.(catalog := w.catalog[sku := Some(t)]) else w
  }

  function SeedSku(w: World, sku: string, net: Net): World {
    if Reaches(net) then w.(stock := w.stock + {sku}) else w
  }

  /** DELETE names only the SKU, whoever created the variant. */
  function DeleteVariant(w: World, sku: string, net: Net): World {
    if Reaches(net) then w.(catalog := w.catalog - {sku}) else w
  }

  /**
   * What the caller is answered: 201, the catalog's 4xx or its 5xx passed on, 502
   * when it did not answer, or 503 with the compensation confirmed or not.
   */
  datatype Status = Created | Rejected | Broken | Undetermined | Failed(compensated: bool)

  datatype Pc = Adding | Seeding | Deleting | Ended(status: Status)

  // ---- One saga on its own ----

  datatype Call = Add | Seed | Delete

  /** Where a saga goes on after a call. */
  function Next(w: World, sku: string, pc: Pc, net: Net): Pc {
    match pc
    case Adding =>
      if net.Lost? then Ended(Undetermined)
      else if net.Errored? then Ended(Broken)
      else if net == Clean && sku !in w.catalog then Seeding else Ended(Rejected)
    case Seeding => if net.Clean? then Ended(Created) else Deleting
    case Deleting => Ended(Failed(net.Clean? && sku in w.catalog))
    case Ended(_) => pc
  }

  function CallOf(pc: Pc): Call {
    match pc
    case Adding => Add
    case Seeding => Seed
    case _ => Delete
  }

  function Effect(w: World, t: nat, sku: string, call: Call, net: Net): World {
    match call
    case Add => AddVariant(w, t, sku, net)
    case Seed => SeedSku(w, sku, net)
    case Delete => DeleteVariant(w, sku, net)
  }

  /** A saga nobody interferes with: its calls one after the other, faring as nets says. */
  function Alone(w: World, t: nat, sku: string, pc: Pc, nets: seq<Net>): (World, Pc)
    decreases |nets|
  {
    if nets == [] || pc.Ended? then (w, pc)
    else Alone(Effect(w, t, sku, CallOf(pc), nets[0]), t, sku, Next(w, sku, pc, nets[0]), nets[1..])
  }

  /** How POST /products/{id}/variants answers. */
  datatype Answer = Done201 | Refusal | ServerError | NoAnswer

  class Services {
    var world: World

    constructor ()
      ensures world == World(map[], {})
    {
      world := World(map[], {});
    }

    method CallAdd(t: nat, sku: string, net: Net) returns (answer: Answer)
      modifies this
      ensures world == AddVariant(old(world), t, sku, net)
      ensures answer == if net.Lost? then NoAnswer else if net.Errored? then ServerError
                        else if net == Clean && sku !in old(world).catalog then Done201 else Refusal
    {
      if net.Lost? {
        answer := NoAnswer;
      } else if net.Errored? {
        answer := ServerError;
      } else if net == Clean && sku !in world.catalog {
        answer := Done201;
      } else {
        answer := Refusal;
      }
      if Reaches(net) && sku !in world.catalog {
        world := world.(catalog := world.catalog[sku := Some(t)]);
      }
    }

    method CallSeed(sku: string, net: Net) returns (ok: bool)
      modifies this
      ensures world == SeedSku(old(world), sku, net) && ok == net.Clean?
    {
      if Reaches(net) {
        world := world.(stock := world.stock + {sku});
      }
      ok := net.Clean?;
    }

    method CallDelete(sku: string, net: Net) returns (ok: bool)
      modifies this
      ensures world == DeleteVariant(old(world), sku, net) && ok == (net.Clean? && sku in old(world).catalog)
    {
      ok := net.Clean? && sku in world.catalog;
      if Reaches(net) {
        world := world.(catalog := world.catalog - {sku});
      }
    }

    /**
     * The handler, undisturbed.  When it answers what: 201 exactly when the SKU is new
     * and both calls succeed, 503 exactly when only the first does.  What it leaves
     * behind: the new variant exactly when it was created and not deleted again, the
     * stock row exactly when the registration got through, and nothing else.
     */
    method Handle(t: nat, sku: string, add: Net, seed: Net, delete: Net) returns (status: Status)
      modifies this
      ensures (world, Ended(status)) == Alone(old(world), t, sku, Adding, [add, seed, delete])
      ensures status.Created? <==> add == Clean && sku !in old(world).catalog && seed == Clean
      ensures status.Failed? <==> add == Clean && sku !in old(world).catalog && seed != Clean
      ensures status.Failed? ==> (status.compensated <==> delete == Clean)
      ensures status.Rejected? <==> add == Refused || (add == Clean && sku in old(world).catalog)
      ensures (status.Broken? <==> add.Errored?) && (status.Undetermined? <==> add.Lost?)
      ensures world.catalog != old(world).catalog <==>
                && sku !in old(world).catalog
                && (status.Created? || add in {Errored(true), Lost(true)}
                    || (status.Failed? && delete !in {Clean, Errored(true), Lost(true)}))
      ensures world.catalog != old(world).catalog ==> world.catalog == old(world).catalog[sku := Some(t)]
      ensures world.stock == if (status.Created? || status.Failed?) && seed in {Clean, Errored(true), Lost(true)}
                             then old(world).stock + {sku} else old(world).stock
      ensures world.catalog - {sku} == old(world).catalog - {sku}
      ensures sku in old(world).catalog ==> world == old(world) && !status.Created?
      ensures status.Created? ==> world == World(old(world).catalog[sku := Some(t)], old(world).stock + {sku})
      ensures status.Rejected? ==> world == old(world)
      ensures status == Failed(true) ==> world.catalog == old(world).catalog
      ensures world.catalog != old(world).catalog
              ==> status.Created? || status.Broken? || status.Undetermined? || status == Failed(false)
      ensures old(world).stock <= world.stock <= old(world).stock + {sku}
    {
      assert [add, seed, delete][1..] == [seed, delete] && [seed, delete][1..] == [delete] && [delete][1..] == [];
      ghost var w0 := world;
      var added := CallAdd(t, sku, add);
      assert Alone(w0, t, sku, Adding, [add, seed, delete])
             == Alone(world, t, sku, Next(w0, sku, Adding, add), [seed, delete]);
      ghost var w1 := world;
      match added {
        case NoAnswer => return Undetermined;
        case Refusal => return Rejected;
        case ServerError => return Broken;
        case Done201 =>
      }
      var seeded := CallSeed(sku, seed);
      assert Alone(w1, t, sku, Seeding, [seed, delete]) == Alone(world, t, sku, Next(w1, sku, Seeding, seed), [delete]);
      if seeded {
        return Created;
      }
      var deleted := CallDelete(sku, delete);
      status := Failed(deleted);
      assert Alone(world, t, sku, Ended(status), []) == (world, Ended(status));
    }
  }

  // ---- Many sagas at once ----

  /** unsure holds the calls that had not been acted on when their caller gave up, and may yet be. */
  datatype Run = Run(sku: string, pc: Pc, unsure: set<Call>)

  datatype System = System(world: World, sagas: map<nat, Run>)

  datatype Action =
    | Begin(t: nat, sku: string)
    | Step(t: nat, net: Net)        // the next call of a saga
    | Late(t: nat, call: Call)      // a call whose caller has given up reaches its service after all
    | Restock(sku: string)          // somebody else registers a SKU
    | Remove(sku: string)           // somebody else deletes a variant

  predicate Can(s: System, a: Action) {
    match a
    case Begin(t, _) => t !in s.sagas
    case Step(t, _) => t in s.sagas && !s.sagas[t].pc.Ended?
    case Late(t, call) => t in s.sagas && call in s.sagas[t].unsure
    case _ => true
  }

  function Do(s: System, a: Action): System
    requires Can(s, a)
  {
    match a
    case Begin(t, sku) => s.(sagas := s.sagas[t := Run(sku, Adding, {})])
    case Step(t, net) =>
      var run := s.sagas[t];
      var call := CallOf(run.pc);
      System(Effect(s.world, t, run.sku, call, net),
             s.sagas[t := Run(run.sku, Next(s.world, run.sku, run.pc, net),
                              if Unclear(net) && !Reaches(net) then run.unsure + {call} else run.unsure)])
    case Late(t, call) =>
      var run := s.sagas[t];
      System(Effect(s.world, t, run.sku, call, Lost(true)), s.sagas[t := run.(unsure := run.unsure - {call})])
    case Restock(sku) => s.(world := s.world.(stock := s.world.stock + {sku}))
    case Remove(sku) => s.(world := s.world.(catalog := s.world.catalog - {sku}))
  }

  /** The variants that exist at the beginning belong to no saga. */
  function Opening(catalog: set<string>, stock: set<string>): System {
    System(World(map sku | sku in catalog :: None, stock), map[])
  }

  /** Where a run of actions leads; None if some action could not happen when its turn came. */
  function Play(catalog: set<string>, stock: set<string>, actions: seq<Action>): Option<System> {
    if actions == [] then Some(Opening(catalog, stock))
    else
      var before := Play(catalog, stock, actions[..|actions| - 1]);
      if before.Some? && Can(before.value, actions[|actions| - 1])
      then Some(Do(before.value, actions[|actions| - 1])) else None
  }

  /** The catalog's variant with this SKU is this saga's. */
  predicate Mine(s: System, t: nat) {
    t in s.sagas && s.sagas[t].sku in s.world.catalog && s.world.catalog[s.sagas[t].sku] == Some(t)
  }

  /** A saga that has a variant in the catalog is under way, or ended in one of the ways that may leave it there. */
  predicate MayHave(pc: Pc) {
    || pc == Seeding || pc == Deleting || pc == Ended(Created)
    || pc == Ended(Undetermined) || pc == Ended(Broken) || pc == Ended(Failed(false))
  }

  // ---- Sagas that have been robbed ----

  predicate By(a: Action, t: nat) {
    (a.Step? || a.Late?) && a.t == t
  }

  /** The sagas whose variant this action takes away, other than the acting one. */
  ghost function Victims(s: System, a: Action): set<nat>
    requires Can(s, a)
  {
    set t | t in s.sagas && Mine(s, t) && !Mine(Do(s, a), t) && !By(a, t)
  }

  /** The sagas whose variant somebody else has taken away at some moment of the run. */
  ghost function Robbed(catalog: set<string>, stock: set<string>, actions: seq<Action>): set<nat>
    requires Play(catalog, stock, actions).Some?
  {
    if actions == [] then {}
    else
      var before := actions[..|actions| - 1];
      Robbed(catalog, stock, before) + Victims(Play(catalog, stock, before).value, actions[|actions| - 1])
  }

  /** What a saga that created its variant and was not robbed still has. */
  predicate Keeps(run: Run) {
    run.pc == Seeding || run.pc == Deleting || run.pc == Ended(Created) || Delete in run.unsure
  }

  ghost predicate Sound(s: System, t: nat, robbed: bool)
    requires t in s.sagas
  {
    var run := s.sagas[t];
    && (robbed ==> !Mine(s, t) && run.pc != Adding && Add !in run.unsure)
    && (Keeps(run) && !robbed ==> Mine(s, t))
    && (run.pc == Ended(Created) ==> run.sku in s.world.stock)
    && (Mine(s, t) ==> MayHave(run.pc))
    && (Add in run.unsure ==> (run.pc == Ended(Undetermined) || run.pc == Ended(Broken)) && !Mine(s, t))
    && (Delete in run.unsure ==> run.pc == Ended(Failed(false)))
  }

  ghost predicate Inv(catalog: set<string>, s: System, robbed: set<nat>) {
    && (forall t :: t in s.sagas ==> Sound(s, t, t in robbed))
    && robbed <= s.sagas.Keys
    && (forall sku :: sku in s.world.catalog ==>
          match s.world.catalog[sku]
          case None => sku in catalog
          case Some(t) => t in s.sagas && s.sagas[t].sku == sku)
  }

  lemma AddKeepsInv(catalog: set<string>, s: System, t: nat, net: Net, robbed: set<nat>)
    requires Inv(catalog, s, robbed) && Can(s, Step(t, net)) && s.sagas[t].pc == Adding
    ensures Inv(catalog, Do(s, Step(t, net)), robbed + Victims(s, Step(t, net)))
  {
    assert Sound(s, t, t in robbed);
  }

  lemma SeedKeepsInv(catalog: set<string>, s: System, t: nat, net: Net, robbed: set<nat>)
    requires Inv(catalog, s, robbed) && Can(s, Step(t, net)) && s.sagas[t].pc == Seeding
    ensures Inv(catalog, Do(s, Step(t, net)), robbed + Victims(s, Step(t, net)))
  {
    assert Sound(s, t, t in robbed);
  }

  lemma DeleteKeepsInv(catalog: set<string>, s: System, t: nat, net: Net, robbed: set<nat>)
    requires Inv(catalog, s, robbed) && Can(s, Step(t, net)) && s.sagas[t].pc == Deleting
    ensures Inv(catalog, Do(s, Step(t, net)), robbed + Victims(s, Step(t, net)))
  {
    assert Sound(s, t, t in robbed);
  }

  lemma LateKeepsInv(catalog: set<string>, s: System, t: nat, call: Call, robbed: set<nat>)
    requires Inv(catalog, s, robbed) && Can(s, Late(t, call))
    ensures Inv(catalog, Do(s, Late(t, call)), robbed + Victims(s, Late(t, call)))
  {
    assert Sound(s, t, t in robbed);
  }

  lemma OtherKeepsInv(catalog: set<string>, s: System, a: Action, robbed: set<nat>)
    requires Inv(catalog, s, robbed) && Can(s, a) && (a.Begin? || a.Restock? || a.Remove?)
    ensures Inv(catalog, Do(s, a), robbed + Victims(s, a))
  {
  }

  lemma StepKeepsInv(catalog: set<string>, s: System, a: Action, robbed: set<nat>)
    requires Inv(catalog, s, robbed) && Can(s, a)
    ensures Inv(catalog, Do(s, a), robbed + Victims(s, a))
  {
    hide Inv, Do, Victims;
    match a {
      case Step(t, net) =>
        match s.sagas[t].pc {
          case Adding => AddKeepsInv(catalog, s, t, net, robbed);
          case Seeding => SeedKeepsInv(catalog, s, t, net, robbed);
          case Deleting => DeleteKeepsInv(catalog, s, t, net, robbed);
          case _ =>
        }
      case Late(t, call) => LateKeepsInv(catalog, s, t, call, robbed);
      case _ => OtherKeepsInv(catalog, s, a, robbed);
    }
  }

  lemma {:induction false} PlayKeepsInv(catalog: set<string>, stock: set<string>, actions: seq<Action>)
    requires Play(catalog, stock, actions).Some?
    ensures Inv(catalog, Play(catalog, stock, actions).value, Robbed(catalog, stock, actions))
  {
    hide Can, Do, Sound, Victims;
    if actions != [] {
      var before := actions[..|actions| - 1];
      PlayKeepsInv(catalog, stock, before);
      StepKeepsInv(catalog, Play(catalog, stock, before).value, actions[|actions| - 1], Robbed(catalog, stock, before));
    }
  }

  /**
   * While nobody else removes a SKU, none of its sagas is robbed, and a variant
   * that had it before any saga stays.
   */
  lemma {:induction false} SafeUnlessRemoved(catalog: set<string>, stock: set<string>, actions: seq<Action>,
                                             sku: string)
    requires Play(catalog, stock, actions).Some? && Remove(sku) !in actions
    ensures var s := Play(catalog, stock, actions).value;
            && (forall t :: t in Robbed(catalog, stock, actions) ==> t in s.sagas && s.sagas[t].sku != sku)
            && (sku in catalog ==> sku in s.world.catalog && s.world.catalog[sku] == None)
  {
    if actions != [] {
      var before, last := actions[..|actions| - 1], actions[|actions| - 1];
      SafeUnlessRemoved(catalog, stock, before, sku);
      PlayKeepsInv(catalog, stock, before);
      assert last in actions;
      SafeStep(catalog, Play(catalog, stock, before).value, last, Robbed(catalog, stock, before), sku);
    }
  }

  lemma SafeStep(catalog: set<string>, s: System, a: Action, robbed: set<nat>, sku: string)
    requires Inv(catalog, s, robbed) && Can(s, a) && a != Remove(sku)
    requires forall t :: t in robbed ==> t in s.sagas && s.sagas[t].sku != sku
    requires sku in catalog ==> sku in s.world.catalog && s.world.catalog[sku] == None
    ensures forall t :: t in robbed + Victims(s, a) ==> t in Do(s, a).sagas && Do(s, a).sagas[t].sku != sku
    ensures sku in catalog ==> sku in Do(s, a).world.catalog && Do(s, a).world.catalog[sku] == None
  {
    if a.Step? || a.Late? {
      assert Sound(s, a.t, a.t in robbed);
    }
  }

  // ---- How sagas go on ----

  /**
   * In every state a saga's next call takes it on as the handler goes on: after a
   * successful first call to the second, after a successful second call to 201, after
   * a failed second call to the compensation, and otherwise to its answer.
   */
  lemma CallsGoOn(s: System, t: nat, net: Net)
    requires Can(s, Step(t, net))
    ensures var sku, pc, pc' := s.sagas[t].sku, s.sagas[t].pc, Do(s, Step(t, net)).sagas[t].pc;
            && (pc' == Seeding <==> pc == Adding && net == Clean && sku !in s.world.catalog)
            && (pc' == Deleting <==> pc == Seeding && net != Clean)
            && (pc' == Ended(Created) <==> pc == Seeding && net == Clean)
            && (pc' == Ended(Failed(true)) <==> pc == Deleting && net == Clean && sku in s.world.catalog)
            && (pc' == Ended(Failed(false)) <==> pc == Deleting && !(net == Clean && sku in s.world.catalog))
            && (pc' == Ended(Rejected) <==>
                  pc == Adding && (net == Refused || (net == Clean && sku in s.world.catalog)))
            && (pc' == Ended(Broken) <==> pc == Adding && net.Errored?)
            && (pc' == Ended(Undetermined) <==> pc == Adding && net.Lost?)
  {
  }

  /**
   * From every state a saga whose SKU is free is answered 201 if its two calls
   * succeed, and both services have the SKU.
   */
  lemma SagaSucceeds(catalog: set<string>, stock: set<string>, actions: seq<Action>, t: nat)
    requires Play(catalog, stock, actions).Some?
    requires var s := Play(catalog, stock, actions).value;
             t in s.sagas && s.sagas[t].pc == Adding && s.sagas[t].sku !in s.world.catalog
    ensures var end := Play(catalog, stock, actions + [Step(t, Clean)] + [Step(t, Clean)]);
            && end.Some? && t in end.value.sagas && end.value.sagas[t].pc == Ended(Created)
            && Mine(end.value, t) && end.value.sagas[t].sku == Play(catalog, stock, actions).value.sagas[t].sku
            && end.value.sagas[t].sku in end.value.world.stock
  {
    PlayOne(catalog, stock, actions, Step(t, Clean));
    PlayOne(catalog, stock, actions + [Step(t, Clean)], Step(t, Clean));
  }

  /**
   * Giving up on a call does not call it off: a first call acted on after the answer
   * leaves the variant in the catalog, and a deletion acted on late takes it out.
   */
  lemma LateCallsAct(s: System, t: nat, net: Net)
    requires t in s.sagas && net in {Lost(false), Errored(false)}
    ensures s.sagas[t].pc == Adding && s.sagas[t].sku !in s.world.catalog ==>
              var answered := Do(s, Step(t, net));
              && answered.world == s.world && answered.sagas[t].pc.Ended? && Can(answered, Late(t, Add))
              && Mine(Do(answered, Late(t, Add)), t)
    ensures s.sagas[t].pc == Deleting && Mine(s, t) ==>
              var answered := Do(s, Step(t, net));
              && answered.world == s.world && answered.sagas[t].pc == Ended(Failed(false))
              && Can(answered, Late(t, Delete))
              && s.sagas[t].sku !in Do(answered, Late(t, Delete)).world.catalog
  {
  }

  // ---- What every interleaving keeps ----

  /**
   * Whatever a saga takes out of the catalog, in time or late, is the variant it
   * created itself if and only if nobody else had taken that away before.
   */
  lemma DeletesItsOwnUnlessRobbed(catalog: set<string>, stock: set<string>, actions: seq<Action>, a: Action,
                                  sku: string)
    requires Play(catalog, stock, actions).Some?
    requires var s := Play(catalog, stock, actions).value;
             && Can(s, a) && (a.Step? || a.Late?) && sku in s.world.catalog && sku !in Do(s, a).world.catalog
    ensures var s := Play(catalog, stock, actions).value;
            && a.t in s.sagas && s.sagas[a.t].sku == sku
            && (s.world.catalog[sku] == Some(a.t) <==> a.t !in Robbed(catalog, stock, actions))
  {
    PlayKeepsInv(catalog, stock, actions);
    hide Inv, Play, Robbed;
    TakesItsOwn(catalog, Play(catalog, stock, actions).value, a, Robbed(catalog, stock, actions), sku);
  }

  lemma TakesItsOwn(catalog: set<string>, s: System, a: Action, robbed: set<nat>, sku: string)
    requires Inv(catalog, s, robbed) && Can(s, a) && (a.Step? || a.Late?)
    requires sku in s.world.catalog && sku !in Do(s, a).world.catalog
    ensures a.t in s.sagas && s.sagas[a.t].sku == sku && (s.world.catalog[sku] == Some(a.t) <==> a.t !in robbed)
  {
    assert Sound(s, a.t, a.t in robbed);
  }

  /** So while nobody else removes this SKU, no saga takes away a variant of it that is not its own. */
  lemma DeletesOnlyItsOwn(catalog: set<string>, stock: set<string>, actions: seq<Action>, a: Action, sku: string)
    requires Play(catalog, stock, actions).Some? && Remove(sku) !in actions
    requires var s := Play(catalog, stock, actions).value;
             && Can(s, a) && a != Remove(sku) && sku in s.world.catalog && sku !in Do(s, a).world.catalog
    ensures var s := Play(catalog, stock, actions).value;
            (a.Step? || a.Late?) && s.world.catalog[sku] == Some(a.t) && s.sagas[a.t].sku == sku
  {
    SafeUnlessRemoved(catalog, stock, actions, sku);
    DeletesItsOwnUnlessRobbed(catalog, stock, actions, a, sku);
  }

  /**
   * A saga answered 201 has its SKU in the inventory, and its variant in the
   * catalog exactly while nobody else has taken it.
   */
  lemma CreatedMeansBoth(catalog: set<string>, stock: set<string>, actions: seq<Action>, t: nat)
    requires Play(catalog, stock, actions).Some?
    requires var s := Play(catalog, stock, actions).value; t in s.sagas && s.sagas[t].pc == Ended(Created)
    ensures var s := Play(catalog, stock, actions).value;
            && s.sagas[t].sku in s.world.stock
            && (Mine(s, t) <==> t !in Robbed(catalog, stock, actions))
            && (Remove(s.sagas[t].sku) !in actions ==> Mine(s, t))
  {
    PlayKeepsInv(catalog, stock, actions);
    var s := Play(catalog, stock, actions).value;
    assert Sound(s, t, t in Robbed(catalog, stock, actions));
    if Remove(s.sagas[t].sku) !in actions {
      SafeUnlessRemoved(catalog, stock, actions, s.sagas[t].sku);
    }
  }

  /** A saga the catalog refused, or one whose compensation was confirmed, has left no variant behind. */
  lemma CleanFailureLeavesNothing(catalog: set<string>, stock: set<string>, actions: seq<Action>, t: nat, sku: string)
    requires Play(catalog, stock, actions).Some?
    requires var s := Play(catalog, stock, actions).value;
             t in s.sagas && (s.sagas[t].pc == Ended(Rejected) || s.sagas[t].pc == Ended(Failed(true)))
    ensures var s := Play(catalog, stock, actions).value;
            sku in s.world.catalog ==> s.world.catalog[sku] != Some(t)
  {
    PlayKeepsInv(catalog, stock, actions);
    var s := Play(catalog, stock, actions).value;
    assert Sound(s, t, t in Robbed(catalog, stock, actions));
  }

  /**
   * Once every saga has ended, a new variant without a stock row is the doing of
   * one saga: its compensation failed, its first call was answered with a server
   * error, or it was not answered at all.
   */
  lemma OrphansAreAccountedFor(catalog: set<string>, stock: set<string>, actions: seq<Action>, sku: string)
    requires Play(catalog, stock, actions).Some?
    requires var s := Play(catalog, stock, actions).value;
             && (forall t :: t in s.sagas ==> s.sagas[t].pc.Ended?)
             && sku in s.world.catalog && sku !in s.world.stock && sku !in catalog
    ensures var s := Play(catalog, stock, actions).value;
            exists t :: Mine(s, t) && s.sagas[t].sku == sku
                        && s.sagas[t].pc in {Ended(Failed(false)), Ended(Broken), Ended(Undetermined)}
  {
    PlayKeepsInv(catalog, stock, actions);
    var s := Play(catalog, stock, actions).value;
    var t := s.world.catalog[sku].value;
    assert Sound(s, t, t in Robbed(catalog, stock, actions)) && Mine(s, t);
  }

  /**
   * Each of the three endings does leave orphans: whatever there was, a new SKU
   * whose INSERT is followed by a server error, by silence, or by a failed
   * registration and a failed compensation, ends up without a stock row.
   */
  lemma OrphansHappen(catalog: set<string>, stock: set<string>, sku: string, status: Status)
    requires sku !in catalog && sku !in stock && status in {Broken, Undetermined, Failed(false)}
    ensures exists actions, t ::
              && Play(catalog, stock, actions).Some? && t in Play(catalog, stock, actions).value.sagas
              && var s := Play(catalog, stock, actions).value;
                 s.sagas[t].pc == Ended(status) && Mine(s, t) && s.sagas[t].sku == sku && sku !in s.world.stock
  {
    var a1 := [] + [Begin(0, sku)];
    PlayOne(catalog, stock, [], Begin(0, sku));
    assert Play(catalog, stock, a1).value.sagas == map[0 := Run(sku, Adding, {})];
    assert Play(catalog, stock, a1).value.world == Opening(catalog, stock).world;
    if status == Failed(false) {
      OrphanByFailure(catalog, stock, a1, sku);
    } else {
      OrphanByFirstCall(catalog, stock, a1, sku, status);
    }
  }

  lemma OrphanByFirstCall(catalog: set<string>, stock: set<string>, actions: seq<Action>, sku: string, status: Status)
    requires sku !in catalog && sku !in stock && status in {Broken, Undetermined} && Play(catalog, stock, actions).Some?
    requires var s := Play(catalog, stock, actions).value;
             s.sagas == map[0 := Run(sku, Adding, {})] && s.world == Opening(catalog, stock).world
    ensures exists more, t ::
              && Play(catalog, stock, more).Some? && t in Play(catalog, stock, more).value.sagas
              && var s := Play(catalog, stock, more).value;
                 s.sagas[t].pc == Ended(status) && Mine(s, t) && s.sagas[t].sku == sku && sku !in s.world.stock
  {
    var call := Step(0, if status == Broken then Errored(true) else Lost(true));
    PlayOne(catalog, stock, actions, call);
    var more := actions + [call];
    hide Play;
    assert Play(catalog, stock, more).value.sagas[0] == Run(sku, Ended(status), {});
    assert Mine(Play(catalog, stock, more).value, 0);
  }

  lemma OrphanByFailure(catalog: set<string>, stock: set<string>, actions: seq<Action>, sku: string)
    requires sku !in catalog && sku !in stock && Play(catalog, stock, actions).Some?
    requires var s := Play(catalog, stock, actions).value;
             s.sagas == map[0 := Run(sku, Adding, {})] && s.world == Opening(catalog, stock).world
    ensures exists more, t ::
              && Play(catalog, stock, more).Some? && t in Play(catalog, stock, more).value.sagas
              && var s := Play(catalog, stock, more).value;
                 s.sagas[t].pc == Ended(Failed(false)) && Mine(s, t) && s.sagas[t].sku == sku && sku !in s.world.stock
  {
    PlayOne(catalog, stock, actions, Step(0, Clean));
    var a2 := actions + [Step(0, Clean)];
    PlayOne(catalog, stock, a2, Step(0, Refused));
    var a3 := a2 + [Step(0, Refused)];
    PlayOne(catalog, stock, a3, Step(0, Refused));
    var a4 := a3 + [Step(0, Refused)];
    hide Play;
    assert Play(catalog, stock, a4).value.sagas[0] == Run(sku, Ended(Failed(false)), {});
    assert Mine(Play(catalog, stock, a4).value, 0);
  }

  /**
   * Variants that were there before any saga stay, under every interleaving, unless
   * somebody else removes their SKU.
   */
  lemma ExistingVariantsStay(catalog: set<string>, stock: set<string>, actions: seq<Action>, sku: string)
    requires Play(catalog, stock, actions).Some? && Remove(sku) !in actions && sku in catalog
    ensures var s := Play(catalog, stock, actions).value; sku in s.world.catalog && s.world.catalog[sku] == None
  {
    SafeUnlessRemoved(catalog, stock, actions, sku);
  }

  /**
   * The hypothesis is needed: the DELETE goes by SKU, so if somebody else removes
   * the variant in between and another saga creates the SKU anew, the first saga's
   * compensation takes the second one's variant.
   */
  lemma AnotherDeleterBreaksIt()
    ensures exists actions, a ::
              && Play({}, {}, actions).Some? && Can(Play({}, {}, actions).value, a) && a == Step(1, Clean)
              && Mine(Play({}, {}, actions).value, 2)
              && !Mine(Do(Play({}, {}, actions).value, a), 2)
  {
    var create, steal := Begin(1, "A"), Begin(2, "A");
    var s1 := Do(Opening({}, {}), create);
    var s2 := Do(s1, Step(1, Clean));
    assert s2.world.catalog == map["A" := Some(1)] && s2.sagas == map[1 := Run("A", Seeding, {})];
    var s3 := Do(s2, Remove("A"));
    var s4 := Do(s3, steal);
    var s5 := Do(s4, Step(2, Clean));
    assert s5.world.catalog == map["A" := Some(2)];
    assert s5.sagas == map[1 := Run("A", Seeding, {}), 2 := Run("A", Seeding, {})];
    var s6 := Do(s5, Step(1, Refused));
    assert s6.sagas[1] == Run("A", Deleting, {}) && Mine(s6, 2) && !Mine(Do(s6, Step(1, Clean)), 2);
    var actions := PlaySix(create, Step(1, Clean), Remove("A"), steal, Step(2, Clean), Step(1, Refused), s1, s2, s3,
                           s4, s5);
  }

  lemma PlaySix(a1: Action, a2: Action, a3: Action, a4: Action, a5: Action, a6: Action,
                s1: System, s2: System, s3: System, s4: System, s5: System) returns (actions: seq<Action>)
    requires Can(Opening({}, {}), a1) && s1 == Do(Opening({}, {}), a1) && Can(s1, a2) && s2 == Do(s1, a2)
    requires Can(s2, a3) && s3 == Do(s2, a3) && Can(s3, a4) && s4 == Do(s3, a4) && Can(s4, a5) && s5 == Do(s4, a5)
             && Can(s5, a6)
    ensures Play({}, {}, actions) == Some(Do(s5, a6))
  {
    hide Can, Do, Opening;
    PlayOne({}, {}, [], a1);
    PlayOne({}, {}, [] + [a1], a2);
    PlayOne({}, {}, [] + [a1] + [a2], a3);
    PlayOne({}, {}, [] + [a1] + [a2] + [a3], a4);
    PlayOne({}, {}, [] + [a1] + [a2] + [a3] + [a4], a5);
    PlayOne({}, {}, [] + [a1] + [a2] + [a3] + [a4] + [a5], a6);
    actions := [] + [a1] + [a2] + [a3] + [a4] + [a5] + [a6];
  }

  lemma PlayOne(catalog: set<string>, stock: set<string>, actions: seq<Action>, a: Action)
    requires Play(catalog, stock, actions).Some? && Can(Play(catalog, stock, actions).value, a)
    ensures Play(catalog, stock, actions + [a]) == Some(Do(Play(catalog, stock, actions).value, a))
  {
  }
}
