/** Bounded concurrent discovery: every search holds a slot of its tenant, of its provider and of
    the whole process, and the tenant's semaphore lives as long as some search refers to it. */
module DiscoveryLimits {
  import opened Wrappers

  /** The limits; the constructor refuses any below one. */
  datatype Limits = Limits(overall: nat, tenant: nat, provider: nat)

  predicate ValidLimits(l: Limits) {
    l.overall >= 1 && l.tenant >= 1 && l.provider >= 1
  }

  /** A search on its way in or out: the semaphore objects it was handed, how many of the three
      slots (tenant, provider, overall, in this order) it holds, and whether it is leaving. */
  datatype Search = Search(
    tenant: nat, provider: nat, tenantGate: nat, providerGate: nat, held: nat, leaving: bool)

  /** `free` gives the free slots of every semaphore object ever made, by its identity. */
  datatype State = State(
    overallFree: nat, tenants: map<nat, nat>, references: map<nat, nat>, providers: map<nat, nat>,
    free: map<nat, nat>, searches: map<nat, Search>, nextGate: nat)

  function Init(l: Limits): State {
    State(l.overall, map[], map[], map[], map[], map[], 0)
  }

  // ---------------------------------------------------------------- the steps

  /** Every step is atomic: the registry is changed under its lock, and taking or giving back a
      slot is a single action of the event loop. */
  datatype Action = Register(search: nat, tenant: nat, provider: nat) | Move(search: nat)

  function WithTenant(l: Limits, s: State, tenant: nat): State {
    if tenant in s.tenants then s
    else s.(
      tenants := s.tenants[tenant := s.nextGate],
      free := s.free[s.nextGate := l.tenant],
      nextGate := s.nextGate + 1)
  }

  function WithProvider(l: Limits, s: State, provider: nat): State {
    if provider in s.providers then s
    else s.(
      providers := s.providers[provider := s.nextGate],
      free := s.free[s.nextGate := l.provider],
      nextGate := s.nextGate + 1)
  }

  function Counted(s: State, tenant: nat): State {
    s.(references := s.references[tenant := 1 + if tenant in s.references then s.references[tenant] else 0])
  }

  function Registered(l: Limits, s: State, search: nat, tenant: nat, provider: nat): State {
    var s' := Counted(WithProvider(l, WithTenant(l, s, tenant), provider), tenant);
    if search in s.searches || tenant !in s'.tenants || provider !in s'.providers then s
    else s'.(searches := s'.searches[search :=
      Search(tenant, provider, s'.tenants[tenant], s'.providers[provider], 0, false)])
  }

  function Dropped(s: State, tenant: nat): State {
    if tenant !in s.references then s
    else if s.references[tenant] == 1 then
      s.(references := s.references - {tenant}, tenants := s.tenants - {tenant})
    else if s.references[tenant] == 0 then s
    else s.(references := s.references[tenant := s.references[tenant] - 1])
  }

  /** One slot taken, or the search stays blocked. */
  function Advanced(s: State, id: nat): State
    requires id in s.searches
  {
    var x := s.searches[id];
    var moved := s.searches[id := x.(held := x.held + 1)];
    if x.held == 0 then
      if x.tenantGate in s.free && s.free[x.tenantGate] > 0 then
        s.(searches := moved, free := s.free[x.tenantGate := s.free[x.tenantGate] - 1])
      else s
    else if x.held == 1 then
      if x.providerGate in s.free && s.free[x.providerGate] > 0 then
        s.(searches := moved, free := s.free[x.providerGate := s.free[x.providerGate] - 1])
      else s
    else if s.overallFree > 0 then s.(searches := moved, overallFree := s.overallFree - 1)
    else s
  }

  /** The slots go back in the opposite order, and the reference to the tenant last. */
  function Retreated(s: State, id: nat): State
    requires id in s.searches
  {
    var x := s.searches[id];
    if x.held == 0 then Dropped(s.(searches := s.searches - {id}), x.tenant)
    else
      var moved := s.searches[id := x.(held := x.held - 1, leaving := true)];
      if x.held >= 3 then s.(searches := moved, overallFree := s.overallFree + 1)
      else
        var gate := if x.held == 2 then x.providerGate else x.tenantGate;
        s.(searches := moved, free := s.free[gate := 1 + if gate in s.free then s.free[gate] else 0])
  }

  function Next(l: Limits, s: State, a: Action): State {
    match a
    case Register(search, tenant, provider) => Registered(l, s, search, tenant, provider)
    case Move(id) =>
      if id !in s.searches then s
      else if s.searches[id].leaving || s.searches[id].held >= 3 then Retreated(s, id)
      else Advanced(s, id)
  }

  function Exec(l: Limits, actions: seq<Action>): State {
    if actions == [] then Init(l) else Next(l, Exec(l, actions[..|actions| - 1]), actions[|actions| - 1])
  }

  // ---------------------------------------------------------------- what every step keeps

  ghost function Of(searches: map<nat, Search>, tenant: nat): set<nat> {
    set i | i in searches && searches[i].tenant == tenant
  }

  ghost function HoldingTenant(searches: map<nat, Search>, tenant: nat): set<nat> {
    set i | i in searches && searches[i].tenant == tenant && searches[i].held >= 1
  }

  ghost function HoldingProvider(searches: map<nat, Search>, provider: nat): set<nat> {
    set i | i in searches && searches[i].provider == provider && searches[i].held >= 2
  }

  ghost function Inside(searches: map<nat, Search>): set<nat> {
    set i | i in searches && searches[i].held >= 3
  }

  /** The registry: entries are distinct live semaphores, a tenant is listed exactly while it is
      referred to, and every search holds the listed semaphores of its tenant and provider. */
  ghost predicate Registry(s: State) {
    Gates(s) && AllHanded(s)
  }

  ghost predicate Gates(s: State) {
    && (forall g :: g in s.free ==> g < s.nextGate)
    && (forall t :: t in s.tenants ==> s.tenants[t] in s.free)
    && (forall p :: p in s.providers ==> s.providers[p] in s.free)
    && (forall t, u :: t in s.tenants && u in s.tenants && t != u ==> s.tenants[t] != s.tenants[u])
    && (forall p, q :: p in s.providers && q in s.providers && p != q ==> s.providers[p] != s.providers[q])
    && (forall t, p :: t in s.tenants && p in s.providers ==> s.tenants[t] != s.providers[p])
  }

  ghost predicate AllHanded(s: State) {
    forall i :: i in s.searches ==> Handed(s.tenants, s.providers, s.searches[i])
  }

  ghost predicate Handed(tenants: map<nat, nat>, providers: map<nat, nat>, x: Search) {
    && x.tenant in tenants && tenants[x.tenant] == x.tenantGate
    && x.provider in providers && providers[x.provider] == x.providerGate
    && x.held <= 3 && (x.leaving ==> x.held <= 2)
  }

  ghost predicate Referenced(s: State) {
    (forall t :: t in s.references <==> t in s.tenants) && Counts(s.references, s.searches)
  }

  ghost predicate Counts(references: map<nat, nat>, searches: map<nat, Search>) {
    forall t :: t in references ==> references[t] == |Of(searches, t)| && references[t] > 0
  }

  ghost predicate TenantSlots(l: Limits, s: State)
    requires Registry(s)
  {
    forall t :: t in s.tenants ==> s.free[s.tenants[t]] + |HoldingTenant(s.searches, t)| == l.tenant
  }

  ghost predicate ProviderSlots(l: Limits, s: State)
    requires Registry(s)
  {
    forall p :: p in s.providers ==> s.free[s.providers[p]] + |HoldingProvider(s.searches, p)| == l.provider
  }

  /** Of every semaphore, the free slots and the held ones make up its limit. */
  ghost predicate Conserved(l: Limits, s: State)
    requires Registry(s)
  {
    TenantSlots(l, s) && ProviderSlots(l, s) && s.overallFree + |Inside(s.searches)| == l.overall
  }

  ghost predicate Inv(l: Limits, s: State) {
    Registry(s) && Referenced(s) && Conserved(l, s)
  }

  lemma OneMore(a: set<nat>, b: set<nat>, i: nat)
    requires i !in a && b == a + {i}
    ensures |b| == |a| + 1
  {
  }

  // ---------------------------------------------------------------- taking and giving back a slot

  /** `many` is `few` with one slot more in the hands of search `id`. */
  predicate SlotMore(few: map<nat, Search>, many: map<nat, Search>, id: nat) {
    && id in few && id in many
    && many == few[id := many[id]]
    && many[id].held == few[id].held + 1 <= 3
    && many[id].tenant == few[id].tenant && many[id].provider == few[id].provider
    && many[id].tenantGate == few[id].tenantGate && many[id].providerGate == few[id].providerGate
  }

  lemma TenantHolders(few: map<nat, Search>, many: map<nat, Search>, id: nat, t: nat)
    requires SlotMore(few, many, id)
    ensures Of(many, t) == Of(few, t)
    ensures |HoldingTenant(many, t)| ==
      |HoldingTenant(few, t)| + if few[id].held == 0 && t == few[id].tenant then 1 else 0
  {
    if few[id].held == 0 && t == few[id].tenant {
      OneMore(HoldingTenant(few, t), HoldingTenant(many, t), id);
    } else {
      assert HoldingTenant(many, t) == HoldingTenant(few, t);
    }
  }

  lemma ProviderHolders(few: map<nat, Search>, many: map<nat, Search>, id: nat, p: nat)
    requires SlotMore(few, many, id)
    ensures |HoldingProvider(many, p)| ==
      |HoldingProvider(few, p)| + if few[id].held == 1 && p == few[id].provider then 1 else 0
  {
    if few[id].held == 1 && p == few[id].provider {
      OneMore(HoldingProvider(few, p), HoldingProvider(many, p), id);
    } else {
      assert HoldingProvider(many, p) == HoldingProvider(few, p);
    }
  }

  lemma InsideHolders(few: map<nat, Search>, many: map<nat, Search>, id: nat)
    requires SlotMore(few, many, id)
    ensures |Inside(many)| == |Inside(few)| + if few[id].held == 2 then 1 else 0
  {
    if few[id].held == 2 {
      OneMore(Inside(few), Inside(many), id);
    } else {
      assert Inside(many) == Inside(few);
    }
  }

  /** The free slots that go with `SlotMore`. */
  ghost predicate SlotLess(few: State, many: State, id: nat) {
    && SlotMore(few.searches, many.searches, id)
    && many.tenants == few.tenants && many.providers == few.providers && many.references == few.references
    && many.nextGate == few.nextGate && many.free.Keys == few.free.Keys
    && var x := few.searches[id];
       var gate := if x.held == 0 then x.tenantGate else x.providerGate;
       if x.held == 2 then many.overallFree + 1 == few.overallFree && many.free == few.free
       else
         && many.overallFree == few.overallFree && gate in few.free && few.free[gate] > 0
         && many.free == few.free[gate := few.free[gate] - 1]
  }

  lemma SlotKeepsRegistry(few: State, many: State, id: nat)
    requires SlotLess(few, many, id)
    requires Handed(few.tenants, few.providers, few.searches[id])
    requires Handed(many.tenants, many.providers, many.searches[id])
    ensures Registry(few) <==> Registry(many)
  {
    hide Handed;
    forall i | i in few.searches && i != id ensures many.searches[i] == few.searches[i] {
    }
  }

  lemma SlotKeepsReferenced(few: State, many: State, id: nat)
    requires SlotLess(few, many, id)
    ensures Referenced(few) <==> Referenced(many)
  {
    hide Of;
    forall t ensures Of(many.searches, t) == Of(few.searches, t) {
      TenantHolders(few.searches, many.searches, id, t);
    }
  }

  lemma TenantBalance(few: State, many: State, id: nat, t: nat)
    requires SlotLess(few, many, id) && Registry(few) && t in few.tenants
    ensures few.tenants[t] in many.free
    ensures few.free[few.tenants[t]] + |HoldingTenant(few.searches, t)| ==
      many.free[many.tenants[t]] + |HoldingTenant(many.searches, t)|
  {
    hide HoldingTenant;
    TenantHolders(few.searches, many.searches, id, t);
    assert Handed(few.tenants, few.providers, few.searches[id]);
  }

  lemma ProviderBalance(few: State, many: State, id: nat, p: nat)
    requires SlotLess(few, many, id) && Registry(few) && p in few.providers
    ensures few.providers[p] in many.free
    ensures few.free[few.providers[p]] + |HoldingProvider(few.searches, p)| ==
      many.free[many.providers[p]] + |HoldingProvider(many.searches, p)|
  {
    hide HoldingProvider;
    ProviderHolders(few.searches, many.searches, id, p);
    assert Handed(few.tenants, few.providers, few.searches[id]);
  }

  lemma SlotKeepsTenants(l: Limits, few: State, many: State, id: nat)
    requires SlotLess(few, many, id) && Registry(few) && Registry(many)
    ensures TenantSlots(l, few) <==> TenantSlots(l, many)
  {
    hide HoldingTenant, SlotMore;
    forall t | t in few.tenants
      ensures few.free[few.tenants[t]] + |HoldingTenant(few.searches, t)| ==
        many.free[many.tenants[t]] + |HoldingTenant(many.searches, t)|
    {
      TenantBalance(few, many, id, t);
    }
  }

  lemma SlotKeepsProviders(l: Limits, few: State, many: State, id: nat)
    requires SlotLess(few, many, id) && Registry(few) && Registry(many)
    ensures ProviderSlots(l, few) <==> ProviderSlots(l, many)
  {
    hide HoldingProvider, SlotMore;
    forall p | p in few.providers
      ensures few.free[few.providers[p]] + |HoldingProvider(few.searches, p)| ==
        many.free[many.providers[p]] + |HoldingProvider(many.searches, p)|
    {
      ProviderBalance(few, many, id, p);
    }
  }

  lemma SlotKeepsConserved(l: Limits, few: State, many: State, id: nat)
    requires SlotLess(few, many, id) && Registry(few) && Registry(many)
    ensures Conserved(l, few) <==> Conserved(l, many)
  {
    hide Registry, TenantSlots, ProviderSlots, Inside;
    InsideHolders(few.searches, many.searches, id);
    SlotKeepsTenants(l, few, many, id);
    SlotKeepsProviders(l, few, many, id);
  }

  lemma SlotKeepsInv(l: Limits, few: State, many: State, id: nat)
    requires SlotLess(few, many, id)
    requires Handed(few.tenants, few.providers, few.searches[id])
    requires Handed(many.tenants, many.providers, many.searches[id])
    ensures Inv(l, few) <==> Inv(l, many)
  {
    hide SlotLess, Handed, Registry, Referenced, Conserved;
    SlotKeepsRegistry(few, many, id);
    SlotKeepsReferenced(few, many, id);
    if Registry(few) {
      SlotKeepsConserved(l, few, many, id);
    }
  }

  lemma AdvancedIsSlot(s: State, id: nat)
    requires Registry(s) && id in s.searches && !s.searches[id].leaving && s.searches[id].held < 3
    ensures Advanced(s, id) == s || (
      SlotLess(s, Advanced(s, id), id) &&
      Handed(Advanced(s, id).tenants, Advanced(s, id).providers, Advanced(s, id).searches[id]))
  {
    assert Handed(s.tenants, s.providers, s.searches[id]);
  }

  lemma RetreatedIsSlot(s: State, id: nat)
    requires Registry(s) && id in s.searches && s.searches[id].held > 0
    ensures SlotLess(Retreated(s, id), s, id)
    ensures Handed(Retreated(s, id).tenants, Retreated(s, id).providers, Retreated(s, id).searches[id])
  {
    var s' := Retreated(s, id);
    assert Handed(s.tenants, s.providers, s.searches[id]);
    assert s.searches == s'.searches[id := s.searches[id]];
    var x := s.searches[id];
    if x.held == 2 {
      assert s.free == s'.free[x.providerGate := s'.free[x.providerGate] - 1];
    } else if x.held == 1 {
      assert s.free == s'.free[x.tenantGate := s'.free[x.tenantGate] - 1];
    }
  }

  lemma AdvancedKeeps(l: Limits, s: State, id: nat)
    requires Inv(l, s) && id in s.searches && !s.searches[id].leaving && s.searches[id].held < 3
    ensures Inv(l, Advanced(s, id))
  {
    AdvancedIsSlot(s, id);
    assert Handed(s.tenants, s.providers, s.searches[id]);
    hide *;
    if Advanced(s, id) != s {
      SlotKeepsInv(l, s, Advanced(s, id), id);
    }
  }

  lemma RetreatedKeeps(l: Limits, s: State, id: nat)
    requires Inv(l, s) && id in s.searches && s.searches[id].held > 0
    ensures Inv(l, Retreated(s, id))
  {
    RetreatedIsSlot(s, id);
    assert Handed(s.tenants, s.providers, s.searches[id]);
    hide *;
    SlotKeepsInv(l, Retreated(s, id), s, id);
  }

  // ---------------------------------------------------------------- entering and leaving the registry

  /** All of the invariant but the reference counts. */
  ghost predicate Sound(l: Limits, s: State) {
    Registry(s) && Conserved(l, s)
  }

  lemma MoreNamesKeepHanded(s: State, s': State)
    requires AllHanded(s) && s'.searches == s.searches
    requires forall t :: t in s.tenants ==> t in s'.tenants && s'.tenants[t] == s.tenants[t]
    requires forall p :: p in s.providers ==> p in s'.providers && s'.providers[p] == s.providers[p]
    ensures AllHanded(s')
  {
    forall i | i in s.searches ensures Handed(s'.tenants, s'.providers, s.searches[i]) {
      assert Handed(s.tenants, s.providers, s.searches[i]);
    }
  }

  /** A listed tenant of `s'` was listed with the same free slots, or is new, unheld and free. */
  ghost predicate TenantCarried(l: Limits, s: State, s': State, t: nat)
    requires Gates(s) && Gates(s') && t in s'.tenants
  {
    && HoldingTenant(s'.searches, t) == HoldingTenant(s.searches, t)
    && if t in s.tenants then s'.free[s'.tenants[t]] == s.free[s.tenants[t]]
       else s'.free[s'.tenants[t]] == l.tenant && HoldingTenant(s.searches, t) == {}
  }

  ghost predicate ProviderCarried(l: Limits, s: State, s': State, p: nat)
    requires Gates(s) && Gates(s') && p in s'.providers
  {
    && HoldingProvider(s'.searches, p) == HoldingProvider(s.searches, p)
    && if p in s.providers then s'.free[s'.providers[p]] == s.free[s.providers[p]]
       else s'.free[s'.providers[p]] == l.provider && HoldingProvider(s.searches, p) == {}
  }

  lemma TenantsCarryOver(l: Limits, s: State, s': State)
    requires Registry(s) && TenantSlots(l, s) && Registry(s')
    requires forall t :: t in s'.tenants ==> TenantCarried(l, s, s', t)
    ensures TenantSlots(l, s')
  {
    hide AllHanded, HoldingTenant;
    forall t | t in s'.tenants ensures s'.free[s'.tenants[t]] + |HoldingTenant(s'.searches, t)| == l.tenant {
      assert TenantCarried(l, s, s', t);
    }
  }

  lemma ProvidersCarryOver(l: Limits, s: State, s': State)
    requires Registry(s) && ProviderSlots(l, s) && Registry(s')
    requires forall p :: p in s'.providers ==> ProviderCarried(l, s, s', p)
    ensures ProviderSlots(l, s')
  {
    hide AllHanded, HoldingProvider;
    forall p | p in s'.providers ensures s'.free[s'.providers[p]] + |HoldingProvider(s'.searches, p)| == l.provider {
      assert ProviderCarried(l, s, s', p);
    }
  }

  lemma SlotsCarryOver(l: Limits, s: State, s': State)
    requires Sound(l, s) && Registry(s')
    requires s'.overallFree == s.overallFree && Inside(s'.searches) == Inside(s.searches)
    requires forall t :: t in s'.tenants ==> TenantCarried(l, s, s', t)
    requires forall p :: p in s'.providers ==> ProviderCarried(l, s, s', p)
    ensures Sound(l, s')
  {
    hide Gates, AllHanded, TenantSlots, ProviderSlots, Inside, TenantCarried, ProviderCarried;
    TenantsCarryOver(l, s, s');
    ProvidersCarryOver(l, s, s');
  }

  lemma WithTenantSlots(l: Limits, s: State, tenant: nat)
    requires Sound(l, s) && tenant !in s.tenants && HoldingTenant(s.searches, tenant) == {}
    requires Registry(WithTenant(l, s, tenant))
    ensures Sound(l, WithTenant(l, s, tenant))
  {
    hide Conserved, AllHanded, HoldingTenant, HoldingProvider, Inside;
    var s' := WithTenant(l, s, tenant);
    forall t | t in s'.tenants ensures TenantCarried(l, s, s', t) {
    }
    forall p | p in s'.providers ensures ProviderCarried(l, s, s', p) {
    }
    hide Gates, WithTenant, TenantCarried, ProviderCarried;
    SlotsCarryOver(l, s, s');
  }

  lemma WithTenantKeeps(l: Limits, s: State, tenant: nat)
    requires Sound(l, s) && (tenant !in s.tenants ==> HoldingTenant(s.searches, tenant) == {})
    ensures Sound(l, WithTenant(l, s, tenant))
  {
    hide HoldingTenant, HoldingProvider, Inside, Handed, TenantSlots, ProviderSlots;
    if tenant !in s.tenants {
      MoreNamesKeepHanded(s, WithTenant(l, s, tenant));
      hide AllHanded;
      assert Gates(WithTenant(l, s, tenant));
      WithTenantSlots(l, s, tenant);
    }
  }

  lemma WithProviderSlots(l: Limits, s: State, provider: nat)
    requires Sound(l, s) && provider !in s.providers && HoldingProvider(s.searches, provider) == {}
    requires Registry(WithProvider(l, s, provider))
    ensures Sound(l, WithProvider(l, s, provider))
  {
    hide Conserved, AllHanded, HoldingTenant, HoldingProvider, Inside;
    var s' := WithProvider(l, s, provider);
    forall t | t in s'.tenants ensures TenantCarried(l, s, s', t) {
    }
    forall p | p in s'.providers ensures ProviderCarried(l, s, s', p) {
    }
    hide Gates, WithProvider, TenantCarried, ProviderCarried;
    SlotsCarryOver(l, s, s');
  }

  lemma WithProviderKeeps(l: Limits, s: State, provider: nat)
    requires Sound(l, s) && (provider !in s.providers ==> HoldingProvider(s.searches, provider) == {})
    ensures Sound(l, WithProvider(l, s, provider))
  {
    hide HoldingTenant, HoldingProvider, Inside, Handed, TenantSlots, ProviderSlots;
    if provider !in s.providers {
      MoreNamesKeepHanded(s, WithProvider(l, s, provider));
      hide AllHanded;
      assert Gates(WithProvider(l, s, provider));
      WithProviderSlots(l, s, provider);
    }
  }

  lemma UnknownHasNoHolders(s: State, tenant: nat, provider: nat)
    requires Registry(s)
    ensures tenant !in s.tenants ==> Of(s.searches, tenant) == {} && HoldingTenant(s.searches, tenant) == {}
    ensures provider !in s.providers ==> HoldingProvider(s.searches, provider) == {}
  {
    forall i | i in s.searches ensures s.searches[i].tenant in s.tenants && s.searches[i].provider in s.providers {
      assert Handed(s.tenants, s.providers, s.searches[i]);
    }
  }

  /** A search that holds nothing changes no set of holders when it comes or goes. */
  lemma IdleChangesNoHolders(without: map<nat, Search>, id: nat, x: Search)
    requires id !in without && x.held == 0
    ensures forall t :: HoldingTenant(without[id := x], t) == HoldingTenant(without, t)
    ensures forall p :: HoldingProvider(without[id := x], p) == HoldingProvider(without, p)
    ensures Inside(without[id := x]) == Inside(without)
    ensures forall t :: Of(without[id := x], t) == Of(without, t) + if t == x.tenant then {id} else {}
  {
  }

  lemma EnteredKeeps(l: Limits, s: State, id: nat, x: Search)
    requires Sound(l, s) && id !in s.searches && x.held == 0 && Handed(s.tenants, s.providers, x)
    ensures Sound(l, Counted(s, x.tenant).(searches := s.searches[id := x]))
  {
    IdleChangesNoHolders(s.searches, id, x);
    hide HoldingTenant, HoldingProvider, Inside, Handed, Of;
  }

  lemma EnteredOf(searches: map<nat, Search>, id: nat, x: Search, t: nat)
    requires id !in searches
    ensures |Of(searches[id := x], t)| == |Of(searches, t)| + if t == x.tenant then 1 else 0
  {
    if t == x.tenant {
      OneMore(Of(searches, t), Of(searches[id := x], t), id);
    } else {
      assert Of(searches[id := x], t) == Of(searches, t);
    }
  }

  lemma EnteredCounts(references: map<nat, nat>, searches: map<nat, Search>, id: nat, x: Search)
    requires Counts(references, searches) && id !in searches
    requires x.tenant !in references ==> Of(searches, x.tenant) == {}
    ensures Counts(
      references[x.tenant := 1 + if x.tenant in references then references[x.tenant] else 0], searches[id := x])
  {
    hide Of;
    var references' := references[x.tenant := 1 + if x.tenant in references then references[x.tenant] else 0];
    forall t | t in references' ensures references'[t] == |Of(searches[id := x], t)| && references'[t] > 0 {
      EnteredOf(searches, id, x, t);
    }
  }

  /** The registry may name a tenant that nobody refers to only while it is being entered. */
  lemma EnteredIsReferenced(s: State, id: nat, x: Search)
    requires id !in s.searches && x.held == 0 && Counts(s.references, s.searches)
    requires forall t :: t in s.references || t == x.tenant <==> t in s.tenants
    requires x.tenant !in s.references ==> Of(s.searches, x.tenant) == {}
    ensures Referenced(Counted(s, x.tenant).(searches := s.searches[id := x]))
  {
    hide Counts, Of;
    EnteredCounts(s.references, s.searches, id, x);
  }

  ghost function Prepared(l: Limits, s: State, tenant: nat, provider: nat): State {
    WithProvider(l, WithTenant(l, s, tenant), provider)
  }

  lemma PreparedIs(l: Limits, s: State, tenant: nat, provider: nat)
    requires Inv(l, s)
    ensures var s2 := Prepared(l, s, tenant, provider);
      && Sound(l, s2) && tenant in s2.tenants && provider in s2.providers
      && s2.searches == s.searches && s2.references == s.references
      && (forall t :: t in s2.tenants <==> t in s.tenants || t == tenant)
      && (tenant !in s.references ==> Of(s.searches, tenant) == {})
  {
    UnknownHasNoHolders(s, tenant, provider);
    hide Registry, Conserved, Of, HoldingTenant, HoldingProvider;
    WithTenantKeeps(l, s, tenant);
    WithProviderKeeps(l, WithTenant(l, s, tenant), provider);
  }

  lemma RegisteredKeeps(l: Limits, s: State, id: nat, tenant: nat, provider: nat)
    requires Inv(l, s)
    ensures Inv(l, Registered(l, s, id, tenant, provider))
  {
    if id !in s.searches {
      PreparedIs(l, s, tenant, provider);
      var s2 := Prepared(l, s, tenant, provider);
      var x := Search(tenant, provider, s2.tenants[tenant], s2.providers[provider], 0, false);
      assert Handed(s2.tenants, s2.providers, x);
      assert Registered(l, s, id, tenant, provider) == Counted(s2, tenant).(searches := s2.searches[id := x]);
      hide Registry, Conserved, Of, Registered, Prepared, Counted, Handed;
      EnteredKeeps(l, s2, id, x);
      EnteredIsReferenced(s2, id, x);
    }
  }

  /** The state after search `id`, which holds nothing, has gone; the last search of a tenant
      takes the tenant's entry along. */
  lemma GoneIs(s: State, id: nat)
    requires Referenced(s) && id in s.searches && s.searches[id].tenant in s.tenants
    requires s.searches[id].held == 0
    ensures var x, rest, s' := s.searches[id], s.searches - {id}, Retreated(s, id);
      && s'.searches == rest && s'.providers == s.providers && s'.free == s.free && s'.nextGate == s.nextGate
      && s'.overallFree == s.overallFree
      && s.references[x.tenant] == |Of(rest, x.tenant)| + 1
      && s'.tenants == (if Of(rest, x.tenant) == {} then s.tenants - {x.tenant} else s.tenants)
      && s'.references == (
           if Of(rest, x.tenant) == {} then s.references - {x.tenant}
           else s.references[x.tenant := s.references[x.tenant] - 1])
      && (forall t :: t != x.tenant ==> Of(rest, t) == Of(s.searches, t))
  {
    var x, rest := s.searches[id], s.searches - {id};
    assert s.searches == rest[id := x];
    IdleChangesNoHolders(rest, id, x);
    assert id !in Of(rest, x.tenant);
    OneMore(Of(rest, x.tenant), Of(s.searches, x.tenant), id);
    hide Of, HoldingTenant, HoldingProvider, Inside;
  }

  /** What `GoneIs` says of everything but the counts. */
  lemma GoneFields(s: State, id: nat)
    requires Referenced(s) && id in s.searches && s.searches[id].tenant in s.tenants
    requires s.searches[id].held == 0
    ensures var x, rest, s' := s.searches[id], s.searches - {id}, Retreated(s, id);
      && s'.searches == rest && s'.providers == s.providers && s'.free == s.free && s'.nextGate == s.nextGate
      && s'.overallFree == s.overallFree
      && (forall t :: t in s'.tenants ==> t in s.tenants && s'.tenants[t] == s.tenants[t])
      && (forall t :: t in s.tenants && t !in s'.tenants ==> t == x.tenant && Of(rest, t) == {})
  {
    GoneIs(s, id);
    hide Retreated, Of, Referenced;
  }

  lemma IdleLeaves(searches: map<nat, Search>, id: nat)
    requires id in searches && searches[id].held == 0
    ensures forall t :: HoldingTenant(searches - {id}, t) == HoldingTenant(searches, t)
    ensures forall p :: HoldingProvider(searches - {id}, p) == HoldingProvider(searches, p)
    ensures Inside(searches - {id}) == Inside(searches)
  {
  }

  lemma GoneIsReferenced(s: State, id: nat)
    requires Referenced(s) && id in s.searches && s.searches[id].tenant in s.tenants
    requires s.searches[id].held == 0
    ensures Referenced(Retreated(s, id))
  {
    GoneIs(s, id);
    hide Of, Retreated;
    var x, rest := s.searches[id], s.searches - {id};
    if Of(rest, x.tenant) != {} {
      assert |Of(rest, x.tenant)| > 0;
    }
  }

  lemma StillHanded(s: State, s': State, i: nat)
    requires AllHanded(s) && i in s.searches
    requires s'.providers == s.providers && s.searches[i].tenant in s'.tenants
    requires forall t :: t in s'.tenants ==> t in s.tenants && s'.tenants[t] == s.tenants[t]
    ensures Handed(s'.tenants, s'.providers, s.searches[i])
  {
    assert Handed(s.tenants, s.providers, s.searches[i]);
  }

  lemma GoneIsHanded(s: State, id: nat)
    requires Registry(s) && Referenced(s) && id in s.searches && s.searches[id].held == 0
    requires s.searches[id].tenant in s.tenants
    ensures AllHanded(Retreated(s, id))
  {
    GoneFields(s, id);
    var rest, s' := s.searches - {id}, Retreated(s, id);
    hide Retreated, Gates, Referenced;
    forall i | i in rest ensures Handed(s'.tenants, s'.providers, rest[i]) {
      assert Handed(s.tenants, s.providers, s.searches[i]);
      assert i in Of(rest, rest[i].tenant);
      StillHanded(s, s', i);
    }
  }

  lemma FewerNamesKeepGates(s: State, s': State)
    requires Gates(s) && s'.free == s.free && s'.nextGate == s.nextGate && s'.providers == s.providers
    requires forall t :: t in s'.tenants ==> t in s.tenants && s'.tenants[t] == s.tenants[t]
    ensures Gates(s')
  {
  }

  lemma GoneIsRegistered(s: State, id: nat)
    requires Registry(s) && Referenced(s) && id in s.searches && s.searches[id].held == 0
    ensures Registry(Retreated(s, id))
  {
    assert Handed(s.tenants, s.providers, s.searches[id]);
    GoneIsHanded(s, id);
    GoneFields(s, id);
    hide Retreated, Gates, AllHanded, Referenced, Of;
    FewerNamesKeepGates(s, Retreated(s, id));
  }

  lemma FewerNamesKeepSlots(l: Limits, s: State, s': State)
    requires Sound(l, s) && Registry(s') && s'.free == s.free && s'.overallFree == s.overallFree
    requires s'.providers == s.providers
    requires forall t :: t in s'.tenants ==> t in s.tenants && s'.tenants[t] == s.tenants[t]
    requires forall t :: HoldingTenant(s'.searches, t) == HoldingTenant(s.searches, t)
    requires forall p :: HoldingProvider(s'.searches, p) == HoldingProvider(s.searches, p)
    requires Inside(s'.searches) == Inside(s.searches)
    ensures Conserved(l, s')
  {
    hide Conserved, AllHanded, HoldingTenant, HoldingProvider, Inside;
    forall t | t in s'.tenants ensures TenantCarried(l, s, s', t) {
    }
    forall p | p in s'.providers ensures ProviderCarried(l, s, s', p) {
    }
    hide Gates, TenantCarried, ProviderCarried;
    SlotsCarryOver(l, s, s');
  }

  lemma GoneIsConserved(l: Limits, s: State, id: nat)
    requires Sound(l, s) && Referenced(s) && id in s.searches && s.searches[id].held == 0
    requires Registry(Retreated(s, id))
    ensures Conserved(l, Retreated(s, id))
  {
    assert Handed(s.tenants, s.providers, s.searches[id]);
    GoneFields(s, id);
    IdleLeaves(s.searches, id);
    hide *;
    FewerNamesKeepSlots(l, s, Retreated(s, id));
  }

  lemma GoneKeeps(l: Limits, s: State, id: nat)
    requires Inv(l, s) && id in s.searches && s.searches[id].held == 0
    ensures Inv(l, Retreated(s, id))
  {
    assert Handed(s.tenants, s.providers, s.searches[id]);
    hide Registry, Conserved, Referenced, Retreated;
    GoneIsRegistered(s, id);
    GoneIsConserved(l, s, id);
    GoneIsReferenced(s, id);
  }

  lemma NextKeeps(l: Limits, s: State, a: Action)
    requires Inv(l, s)
    ensures Inv(l, Next(l, s, a))
  {
    hide Inv, Registered, Retreated, Advanced;
    match a
    case Register(id, tenant, provider) => RegisteredKeeps(l, s, id, tenant, provider);
    case Move(id) =>
      if id in s.searches {
        if s.searches[id].held > 0 && (s.searches[id].leaving || s.searches[id].held >= 3) {
          RetreatedKeeps(l, s, id);
        } else if s.searches[id].leaving {
          GoneKeeps(l, s, id);
        } else {
          AdvancedKeeps(l, s, id);
        }
      }
  }

  lemma {:induction false} ExecKeeps(l: Limits, actions: seq<Action>)
    ensures Inv(l, Exec(l, actions))
  {
    if actions == [] {
      assert Inside(Init(l).searches) == {};
    } else {
      ExecKeeps(l, actions[..|actions| - 1]);
      hide Inv;
      NextKeeps(l, Exec(l, actions[..|actions| - 1]), actions[|actions| - 1]);
    }
  }

  // ---------------------------------------------------------------- what holds in every run

  /** The searches of a tenant, or of a provider, that hold their slot, by name. */
  lemma LimitsHold(l: Limits, actions: seq<Action>, tenant: nat, provider: nat)
    ensures var s := Exec(l, actions);
      && |Inside(s.searches)| <= l.overall
      && |HoldingTenant(s.searches, tenant)| <= l.tenant
      && |HoldingProvider(s.searches, provider)| <= l.provider
  {
    var s := Exec(l, actions);
    ExecKeeps(l, actions);
    UnknownHasNoHolders(s, tenant, provider);
    hide Exec, HoldingTenant, HoldingProvider;
  }

  /** A tenant has an entry exactly while some search of it is under way; its reference count is
      the number of those; and all of them share the one listed semaphore. */
  lemma TenantEntryIffReferenced(l: Limits, actions: seq<Action>, tenant: nat)
    ensures var s := Exec(l, actions);
      && (tenant in s.tenants <==> exists i :: i in s.searches && s.searches[i].tenant == tenant)
      && (tenant in s.tenants <==> tenant in s.references)
      && (tenant in s.references ==> s.references[tenant] == |Of(s.searches, tenant)|)
      && forall i :: i in s.searches && s.searches[i].tenant == tenant ==>
           tenant in s.tenants && s.searches[i].tenantGate == s.tenants[tenant]
  {
    var s := Exec(l, actions);
    ExecKeeps(l, actions);
    hide Exec;
    if tenant in s.tenants {
      assert |Of(s.searches, tenant)| > 0;
      assert Of(s.searches, tenant) != {};
      var i :| i in Of(s.searches, tenant);
    }
    forall i | i in s.searches && s.searches[i].tenant == tenant
      ensures tenant in s.tenants && s.searches[i].tenantGate == s.tenants[tenant]
    {
      assert Handed(s.tenants, s.providers, s.searches[i]);
    }
  }

  /** Whether the next step of a search changes the state: it is not blocked on a slot. */
  predicate CanMove(l: Limits, s: State, id: nat) {
    id in s.searches && Next(l, s, Move(id)) != s
  }

  lemma ChangedSearch(l: Limits, s: State, id: nat)
    requires id in s.searches && (s.searches[id].leaving || s.searches[id].held >= 3)
    ensures CanMove(l, s, id)
  {
    var x, s' := s.searches[id], Next(l, s, Move(id));
    if x.held == 0 {
      assert id !in s'.searches;
    } else {
      assert s'.searches[id].held != x.held;
    }
  }

  lemma FreeSlotMoves(l: Limits, s: State, id: nat)
    requires id in s.searches && !s.searches[id].leaving && s.searches[id].held <= 2
    requires var x := s.searches[id];
      if x.held == 2 then s.overallFree > 0
      else
        var gate := if x.held == 0 then x.tenantGate else x.providerGate;
        gate in s.free && s.free[gate] > 0
    ensures CanMove(l, s, id)
  {
    assert Next(l, s, Move(id)).searches[id].held != s.searches[id].held;
  }

  /** The searches that hold at least this many slots. */
  ghost function AtLeast(searches: map<nat, Search>, n: nat): set<nat> {
    set i | i in searches && searches[i].held >= n
  }

  lemma NoneAtLeast(searches: map<nat, Search>, n: nat, name: nat)
    requires AtLeast(searches, n) == {}
    ensures n == 1 ==> HoldingTenant(searches, name) == {}
    ensures n == 2 ==> HoldingProvider(searches, name) == {}
    ensures n == 3 ==> Inside(searches) == {}
  {
    assert forall i :: i in searches ==> i !in AtLeast(searches, n);
  }

  lemma AllFree(l: Limits, s: State, x: Search)
    requires Sound(l, s) && Handed(s.tenants, s.providers, x) && x.held <= 2
    requires x.held == 0 ==> HoldingTenant(s.searches, x.tenant) == {}
    requires x.held == 1 ==> HoldingProvider(s.searches, x.provider) == {}
    requires x.held == 2 ==> Inside(s.searches) == {}
    ensures x.held == 0 ==> x.tenantGate in s.free && s.free[x.tenantGate] == l.tenant
    ensures x.held == 1 ==> x.providerGate in s.free && s.free[x.providerGate] == l.provider
    ensures x.held == 2 ==> s.overallFree == l.overall
  {
    hide HoldingTenant, HoldingProvider, Inside, AllHanded;
  }

  lemma FreeWhenNoneHold(l: Limits, s: State, id: nat)
    requires ValidLimits(l) && Inv(l, s) && id in s.searches && !s.searches[id].leaving && s.searches[id].held <= 2
    requires AtLeast(s.searches, s.searches[id].held + 1) == {}
    ensures CanMove(l, s, id)
  {
    var x := s.searches[id];
    assert Handed(s.tenants, s.providers, x);
    NoneAtLeast(s.searches, x.held + 1, x.tenant);
    NoneAtLeast(s.searches, x.held + 1, x.provider);
    hide Registry, Conserved, Referenced, HoldingTenant, HoldingProvider, Inside, Handed, AtLeast, CanMove;
    AllFree(l, s, x);
    FreeSlotMoves(l, s, id);
  }

  /** No deadlock: while any search is under way, some search can move. */
  lemma SomeSearchMoves(l: Limits, s: State) returns (id: nat)
    requires ValidLimits(l) && Inv(l, s) && s.searches != map[]
    ensures CanMove(l, s, id)
  {
    hide Inv, CanMove;
    id :| id in s.searches;
    if i :| i in s.searches && (s.searches[i].leaving || s.searches[i].held >= 3) {
      ChangedSearch(l, s, i);
      return i;
    }
    if i :| i in s.searches && s.searches[i].held == 2 {
      id := i;
    } else if i :| i in s.searches && s.searches[i].held == 1 {
      id := i;
    }
    FreeWhenNoneHold(l, s, id);
  }

  // ---------------------------------------------------------------- every search comes out again

  /** How many moves a search still has to make. */
  function Left(x: Search): nat {
    if x.leaving then x.held + 1 else if x.held <= 3 then 7 - x.held else x.held + 1
  }

  ghost function Pick(searches: map<nat, Search>): nat
    requires searches != map[]
    ensures Pick(searches) in searches
  {
    var id :| id in searches;
    id
  }

  ghost function Total(searches: map<nat, Search>): nat
    decreases |searches|
  {
    if searches == map[] then 0
    else
      Left(searches[Pick(searches)]) + Total(searches - {Pick(searches)})
  }

  lemma {:induction false} TotalSplits(searches: map<nat, Search>, id: nat)
    requires id in searches
    ensures Total(searches) == Left(searches[id]) + Total(searches - {id})
    decreases |searches|
  {
    var k := Pick(searches);
    if k != id {
      TotalSplits(searches - {k}, id);
      TotalSplits(searches - {id}, k);
      assert searches - {k} - {id} == searches - {id} - {k};
    }
  }

  lemma AdvancedSearches(s: State, id: nat)
    requires id in s.searches && s.searches[id].held <= 2 && Advanced(s, id) != s
    ensures Advanced(s, id).searches == s.searches[id := s.searches[id].(held := s.searches[id].held + 1)]
  {
  }

  lemma RetreatedSearches(s: State, id: nat)
    requires id in s.searches
    ensures var x := s.searches[id];
      Retreated(s, id).searches ==
        if x.held == 0 then s.searches - {id} else s.searches[id := x.(held := x.held - 1, leaving := true)]
  {
  }

  lemma MoveShrinks(l: Limits, s: State, id: nat)
    requires CanMove(l, s, id) && s.searches[id].held <= 3 && (s.searches[id].leaving ==> s.searches[id].held <= 2)
    ensures var s' := Next(l, s, Move(id));
      && s'.searches - {id} == s.searches - {id}
      && (if id in s'.searches then Left(s'.searches[id]) + 1 == Left(s.searches[id]) else Left(s.searches[id]) == 1)
  {
    if s.searches[id].leaving || s.searches[id].held >= 3 {
      RetreatedSearches(s, id);
    } else {
      AdvancedSearches(s, id);
    }
    hide Retreated, Advanced;
  }

  /** Each move brings the whole exactly one move nearer to the end. */
  lemma MoveDescends(l: Limits, s: State, id: nat)
    requires Inv(l, s) && id in s.searches && CanMove(l, s, id)
    ensures Total(Next(l, s, Move(id)).searches) + 1 == Total(s.searches)
  {
    assert Handed(s.tenants, s.providers, s.searches[id]);
    MoveShrinks(l, s, id);
    hide *;
    var s' := Next(l, s, Move(id));
    TotalSplits(s.searches, id);
    if id in s'.searches {
      TotalSplits(s'.searches, id);
    } else {
      assert s'.searches - {id} == s'.searches;
    }
  }

  /** Every provider's semaphore has all its slots free. */
  predicate ProvidersFree(l: Limits, s: State) {
    forall p :: p in s.providers ==> s.providers[p] in s.free && s.free[s.providers[p]] == l.provider
  }

  /** From every reachable state the searches under way can all finish, in as many moves as they
      have left, and then every slot is free and no tenant is listed. */
  lemma {:induction false} Drains(l: Limits, actions: seq<Action>) returns (more: seq<Action>)
    requires ValidLimits(l)
    ensures |more| == Total(Exec(l, actions).searches) && forall a :: a in more ==> a.Move?
    ensures var s := Exec(l, actions + more);
      && s.searches == map[] && s.tenants == map[] && s.references == map[]
      && s.overallFree == l.overall && ProvidersFree(l, s)
    decreases Total(Exec(l, actions).searches)
  {
    var s := Exec(l, actions);
    ExecKeeps(l, actions);
    hide Inv, CanMove, Next, ProvidersFree;
    if s.searches == map[] {
      more := [];
      assert actions + more == actions;
      NoneLeft(l, s);
    } else {
      var id := SomeSearchMoves(l, s);
      MovableIsThere(l, s, id);
      MoveDescends(l, s, id);
      var next := actions + [Move(id)];
      OneMoreAction(l, actions, Move(id));
      hide Total, Exec;
      var rest := Drains(l, next);
      more := [Move(id)] + rest;
      assert actions + more == next + rest;
    }
  }

  lemma MovableIsThere(l: Limits, s: State, id: nat)
    requires CanMove(l, s, id)
    ensures id in s.searches
  {
  }

  lemma OneMoreAction(l: Limits, actions: seq<Action>, a: Action)
    ensures Exec(l, actions + [a]) == Next(l, Exec(l, actions), a)
  {
    hide Next;
    assert (actions + [a])[..|actions|] == actions;
  }

  lemma NobodyReferred(s: State)
    requires Referenced(s) && s.searches == map[]
    ensures forall t :: t !in s.references && t !in s.tenants
  {
    forall t ensures Of(s.searches, t) == {} {
    }
    hide Of;
  }

  lemma NoneLeft(l: Limits, s: State)
    requires Inv(l, s) && s.searches == map[]
    ensures s.tenants == map[] && s.references == map[] && s.overallFree == l.overall && ProvidersFree(l, s)
  {
    NoneHoldProviders(l, s);
    NobodyReferred(s);
    assert Inside(s.searches) == {};
    assert s.overallFree + |Inside(s.searches)| == l.overall;
    hide *;
    assert s.references.Keys == {} && s.tenants.Keys == {};
  }

  lemma NoneHoldProviders(l: Limits, s: State)
    requires Sound(l, s) && s.searches == map[]
    ensures ProvidersFree(l, s)
  {
    hide AllHanded, TenantSlots, Inside;
    forall p | p in s.providers ensures |HoldingProvider(s.searches, p)| == 0 {
      assert HoldingProvider(s.searches, p) == {};
    }
  }

  // ---------------------------------------------------------------- the class

  lemma ReleaseIs(l: Limits, s: State, id: nat)
    requires id in s.searches && s.searches[id].leaving && s.searches[id].held == 0
    requires var t := s.searches[id].tenant; t in s.references && s.references[t] > 0
    ensures var t := s.searches[id].tenant;
      var gone := s.(searches := s.searches - {id});
      Next(l, s, Move(id)) ==
        if s.references[t] == 1 then gone.(references := s.references - {t}, tenants := s.tenants - {t})
        else gone.(references := s.references[t := s.references[t] - 1])
  {
  }

  lemma HasReference(l: Limits, s: State, id: nat)
    requires Inv(l, s) && id in s.searches
    ensures var t := s.searches[id].tenant; t in s.tenants && t in s.references && s.references[t] > 0
  {
    hide Conserved, Gates;
    assert Handed(s.tenants, s.providers, s.searches[id]);
  }

  lemma KeptByTenant(l: Limits, s: State, tenant: nat)
    ensures WithTenant(l, s, tenant).searches == s.searches && WithTenant(l, s, tenant).references == s.references
  {
  }

  lemma KeptByProvider(l: Limits, s: State, provider: nat)
    ensures WithProvider(l, s, provider).searches == s.searches && WithProvider(l, s, provider).references == s.references
    ensures WithProvider(l, s, provider).tenants == s.tenants
  {
  }

  class DiscoveryConcurrency {
    const limits: Limits
    var overallFree: nat
    var tenants: map<nat, nat>
    var references: map<nat, nat>
    var providers: map<nat, nat>
    var free: map<nat, nat>
    var nextGate: nat
    ghost var searches: map<nat, Search>

    ghost function Now(): State
      reads this
    {
      State(overallFree, tenants, references, providers, free, searches, nextGate)
    }

    constructor (l: Limits)
      requires ValidLimits(l)
      ensures limits == l && Now() == Init(l)
    {
      limits, overallFree, tenants, references := l, l.overall, map[], map[];
      providers, free, nextGate, searches := map[], map[], 0, map[];
    }

    method TenantGate(tenant: nat) returns (gate: nat)
      modifies this
      ensures Now() == WithTenant(limits, old(Now()), tenant)
      ensures tenant in tenants && gate == tenants[tenant]
    {
      if tenant !in tenants {
        tenants, free, nextGate := tenants[tenant := nextGate], free[nextGate := limits.tenant], nextGate + 1;
      }
      gate := tenants[tenant];
    }

    method ProviderGate(provider: nat) returns (gate: nat)
      modifies this
      ensures Now() == WithProvider(limits, old(Now()), provider)
      ensures provider in providers && gate == providers[provider]
    {
      if provider !in providers {
        providers, free, nextGate := providers[provider := nextGate], free[nextGate := limits.provider], nextGate + 1;
      }
      gate := providers[provider];
    }

    /** The lookup under the registry lock. */
    method Semaphores(ghost id: nat, tenant: nat, provider: nat) returns (tenantGate: nat, providerGate: nat)
      requires id !in searches
      modifies this
      ensures Now() == Next(limits, old(Now()), Register(id, tenant, provider))
      ensures id in searches && searches[id] == Search(tenant, provider, tenantGate, providerGate, 0, false)
    {
      ghost var before := Now();
      tenantGate := TenantGate(tenant);
      ghost var named := Now();
      providerGate := ProviderGate(provider);
      ghost var prepared := Now();
      KeptByProvider(limits, named, provider);
      KeptByTenant(limits, before, tenant);
      hide WithTenant, WithProvider;
      references := references[tenant := 1 + if tenant in references then references[tenant] else 0];
      searches := searches[id := Search(tenant, provider, tenantGate, providerGate, 0, false)];
      assert Now() == Counted(prepared, tenant).(searches := searches);
    }

    /** The other end: the last search of a tenant takes the tenant's entry along. */
    method ReleaseTenantReference(ghost id: nat, tenant: nat)
      requires id in searches && searches[id].tenant == tenant && searches[id].leaving && searches[id].held == 0
      requires tenant in references && references[tenant] > 0
      modifies this
      ensures Now() == Next(limits, old(Now()), Move(id))
    {
      ReleaseIs(limits, Now(), id);
      hide Next;
      var remaining := references[tenant] - 1;
      if remaining == 0 {
        references, tenants := references - {tenant}, tenants - {tenant};
      } else {
        references := references[tenant := remaining];
      }
      searches := searches - {id};
    }
  }
}
