/** The reconciler that makes postit's webhook provider the active mail provider of the identity server.

    The server is a list of providers, the vault is the text of a dotenv file. A run may stop after any
    server call or any write of the vault; `Exec` is a run that stops after `budget` of them, and
    `EnsureIdentityMailProvider` is the executor's loop. */
module MailProvider {
  import opened Wrappers
  import opened Dotenv

  const IDENTITY_MAIL_DESCRIPTION := "postit: identity mail webhook"
  const SMTP_DESCRIPTION := "postit dev: host SMTP tool"
  const SIGNING_KEY_VAR := "POSTIT__IDENTITY_MAIL__SIGNING_KEY"

  /** A mail provider as the server lists it. The server, not the list, knows the signing key. */
  datatype Provider = Provider(id: nat, description: string, active: bool, endpoint: string, key: string) {
    predicate Ours() {
      description == IDENTITY_MAIL_DESCRIPTION
    }

    predicate Operators() {
      active && description != IDENTITY_MAIL_DESCRIPTION && description != SMTP_DESCRIPTION
    }
  }

  datatype Step = Create | UpdateEndpoint(id: nat) | RotateKey(id: nat) | Activate(id: nat) | KeepOperatorProvider

  predicate OperatorActive(providers: seq<Provider>) {
    exists i :: 0 <= i < |providers| && providers[i].Operators()
  }

  /** The index of the first provider that is ours, or the number of providers. */
  function FirstOurs(providers: seq<Provider>): (i: nat)
    ensures i <= |providers|
    ensures forall j :: 0 <= j < i ==> !providers[j].Ours()
    ensures i < |providers| ==> providers[i].Ours()
  {
    if providers == [] || providers[0].Ours() then 0 else 1 + FirstOurs(providers[1..])
  }

  function Plan(providers: seq<Provider>, vaultHasKey: bool, endpoint: string): seq<Step> {
    if OperatorActive(providers) then [KeepOperatorProvider]
    else
      var i := FirstOurs(providers);
      if i == |providers| then [Create]
      else
        var ours := providers[i];
        (if !vaultHasKey then [RotateKey(ours.id)]
         else if ours.endpoint != endpoint then [UpdateEndpoint(ours.id)]
         else [])
        + (if !ours.active then [Activate(ours.id)] else [])
  }

  // ---------- The server and the vault ----------

  /** The server's providers, the next id and the number of keys it has issued; the vault file, if there is one. */
  datatype World = World(providers: seq<Provider>, nextId: nat, issued: nat, vault: Option<string>) {
    ghost predicate Valid() {
      && (forall i :: 0 <= i < |providers| ==> providers[i].id < nextId)
      && (forall i, j :: 0 <= i < j < |providers| ==> providers[i].id != providers[j].id)
    }

    predicate HasKey() {
      vault.Some? && HasValue(vault.value, SIGNING_KEY_VAR)
    }
  }

  type Keys = nat -> string

  /** A new provider is listed last and is not active. */
  function Created(w: World, endpoint: string, keys: Keys): World {
    w.(providers := w.providers + [Provider(w.nextId, IDENTITY_MAIL_DESCRIPTION, false, endpoint, keys(w.issued))],
       nextId := w.nextId + 1, issued := w.issued + 1)
  }

  function PutOne(p: Provider, id: nat, endpoint: string, key: Option<string>): Provider {
    if p.id != id then p
    else p.(description := IDENTITY_MAIL_DESCRIPTION, endpoint := endpoint, key := if key.Some? then key.value else p.key)
  }

  function Put(w: World, id: nat, endpoint: string, rotate: bool, keys: Keys): World {
    var key := if rotate then Some(keys(w.issued)) else None;
    w.(providers := seq(|w.providers|, i requires 0 <= i < |w.providers| => PutOne(w.providers[i], id, endpoint, key)),
       issued := if rotate then w.issued + 1 else w.issued)
  }

  /** Activating one provider deactivates every other. */
  function Activated(w: World, id: nat): World {
    w.(providers := seq(|w.providers|, i requires 0 <= i < |w.providers| => w.providers[i].(active := w.providers[i].id == id)))
  }

  predicate CanStore(w: World, key: string) {
    key != "" && Quotable(key) && w.vault.Some?
  }

  function Stored(w: World, key: string): World
    requires w.vault.Some?
  {
    w.(vault := Some(Upserted(w.vault.value, SIGNING_KEY_VAR, key)))
  }

  // ---------- A run that may stop anywhere ----------

  /** The state a run leaves behind, and whether it ran to the end. */
  datatype End = End(world: World, done: bool)

  function Exec(w: World, steps: seq<Step>, endpoint: string, keys: Keys, budget: nat): End
    decreases |steps|
  {
    if steps == [] then End(w, true)
    else if steps[0] == KeepOperatorProvider then Exec(w, steps[1..], endpoint, keys, budget)
    else if budget == 0 then End(w, false)
    else
      var rest := steps[1..];
      match steps[0]
      case KeepOperatorProvider => End(w, true)
      case Create =>
        var w1, key := Created(w, endpoint, keys), keys(w.issued);
        if budget == 1 || !CanStore(w1, key) then End(w1, false)
        else
          var w2 := Stored(w1, key);
          if budget == 2 then End(w2, false)
          else Exec(Activated(w2, w.nextId), rest, endpoint, keys, budget - 3)
      case UpdateEndpoint(id) => Exec(Put(w, id, endpoint, false, keys), rest, endpoint, keys, budget - 1)
      case RotateKey(id) =>
        var w1, key := Put(w, id, endpoint, true, keys), keys(w.issued);
        if budget == 1 || !CanStore(w1, key) then End(w1, false)
        else Exec(Stored(w1, key), rest, endpoint, keys, budget - 2)
      case Activate(id) => Exec(Activated(w, id), rest, endpoint, keys, budget - 1)
  }

  /** One run: a missing vault stops it before any call. */
  function Reconcile(w: World, endpoint: string, keys: Keys, budget: nat): End {
    if w.vault.None? then End(w, false)
    else Exec(w, Plan(w.providers, w.HasKey(), endpoint), endpoint, keys, budget)
  }

  /** The executor, with the server and the vault as its state. */
  class Bootstrap {
    var providers: seq<Provider>
    var nextId: nat
    var issued: nat
    var vault: Option<string>
    const keys: Keys
    var budget: nat

    constructor (w: World, keys: Keys, budget: nat)
      ensures View() == w && this.keys == keys && this.budget == budget
    {
      providers, nextId, issued, vault := w.providers, w.nextId, w.issued, w.vault;
      this.keys := keys;
      this.budget := budget;
    }

    function View(): World
      reads this
    {
      World(providers, nextId, issued, vault)
    }

    /** `POST /admin/v1/email/http` */
    method PostProvider(endpoint: string) returns (id: nat, key: string)
      requires budget > 0
      modifies this
      ensures View() == Created(old(View()), endpoint, keys) && budget == old(budget) - 1
      ensures id == old(nextId) && key == keys(old(issued))
    {
      id, key := nextId, keys(issued);
      providers := providers + [Provider(id, IDENTITY_MAIL_DESCRIPTION, false, endpoint, key)];
      nextId, issued, budget := nextId + 1, issued + 1, budget - 1;
    }

    /** `PUT /admin/v1/email/http/{id}`; a rotation answers with the new signing key. */
    method PutProvider(id: nat, endpoint: string, rotate: bool) returns (key: string)
      requires budget > 0
      modifies this
      ensures View() == Put(old(View()), id, endpoint, rotate, keys) && budget == old(budget) - 1
      ensures rotate ==> key == keys(old(issued))
    {
      key := if rotate then keys(issued) else "";
      var i := 0;
      var updated: seq<Provider> := [];
      while i < |providers|
        invariant 0 <= i <= |providers| && |updated| == i
        invariant forall j :: 0 <= j < i ==>
                                updated[j] == PutOne(providers[j], id, endpoint, if rotate then Some(keys(issued)) else None)
      {
        var p := providers[i];
        if p.id == id {
          p := p.(description := IDENTITY_MAIL_DESCRIPTION, endpoint := endpoint);
          if rotate {
            p := p.(key := key);
          }
        }
        updated := updated + [p];
        i := i + 1;
      }
      providers := updated;
      issued, budget := if rotate then issued + 1 else issued, budget - 1;
    }

    /** `POST /admin/v1/email/{id}/_activate` */
    method ActivateProvider(id: nat)
      requires budget > 0
      modifies this
      ensures View() == Activated(old(View()), id) && budget == old(budget) - 1
    {
      var i := 0;
      var updated: seq<Provider> := [];
      while i < |providers|
        invariant 0 <= i <= |providers| && |updated| == i
        invariant forall j :: 0 <= j < i ==> updated[j] == providers[j].(active := providers[j].id == id)
      {
        updated := updated + [providers[i].(active := providers[i].id == id)];
        i := i + 1;
      }
      providers, budget := updated, budget - 1;
    }

    method StoreSigningKey(key: string) returns (ok: bool)
      requires budget > 0
      modifies this`vault, this`budget
      ensures ok <==> key != "" && '\'' !in key && '\n' !in key && '\r' !in key && old(vault).Some?
      ensures ok == CanStore(old(View()), key)
      ensures View() == if ok then Stored(old(View()), key) else old(View())
      ensures budget == if ok then old(budget) - 1 else old(budget)
    {
      if key == "" {
        return false;
      }
      var r := UpsertEnvValue(vault, SIGNING_KEY_VAR, key);
      if r.Err? {
        return false;
      }
      vault, budget := Some(r.value), budget - 1;
      return true;
    }

    method EnsureIdentityMailProvider(endpoint: string) returns (done: bool)
      modifies this
      ensures End(View(), done) == Reconcile(old(View()), endpoint, keys, old(budget))
    {
      hide Put, Activated, Created, Stored, CanStore, Plan, HasValue, Lines;
      ghost var start, allowed := View(), budget;
      var hasKey := EnvHasValue(vault, SIGNING_KEY_VAR);
      if hasKey.Err? {
        return false;
      }
      var steps := Plan(providers, hasKey.value, endpoint);
      var i := 0;
      while i < |steps|
        invariant 0 <= i <= |steps|
        invariant Exec(start, steps, endpoint, keys, allowed) == Exec(View(), steps[i..], endpoint, keys, budget)
      {
        var step := steps[i];
        assert steps[i..][1..] == steps[i + 1..];
        i := i + 1;
        if step == KeepOperatorProvider {
          continue;
        }
        if budget == 0 {
          return false;
        }
        match step {
          case Create =>
            var id, key := PostProvider(endpoint);
            if budget == 0 {
              return false;
            }
            var ok := StoreSigningKey(key);
            if !ok || budget == 0 {
              return false;
            }
            ActivateProvider(id);
          case UpdateEndpoint(id) =>
            var _ := PutProvider(id, endpoint, false);
          case RotateKey(id) =>
            var key := PutProvider(id, endpoint, true);
            if budget == 0 {
              return false;
            }
            var ok := StoreSigningKey(key);
            if !ok {
              return false;
            }
          case Activate(id) => ActivateProvider(id);
        }
      }
      return true;
    }
  }

  // ---------- What every run keeps ----------

  /** Signing keys as the server issues them: not empty, without quotes or line breaks. */
  ghost predicate PlainKeys(keys: Keys) {
    forall n :: keys(n) != "" && Quotable(keys(n)) && '"' !in keys(n)
  }

  /** A server the reconciler may change: its ids are distinct, the vault exists, and whatever is active is
      postit's webhook or its SMTP fallback. */
  ghost predicate Open(w: World) {
    w.Valid() && w.vault.Some? && forall p :: p in w.providers && p.active ==> p.description in {IDENTITY_MAIL_DESCRIPTION, SMTP_DESCRIPTION}
  }

  /** An active provider with any other description: no run, however far it gets, changes anything. */
  lemma OperatorIsLeftAlone(w: World, endpoint: string, keys: Keys, budget: nat)
    requires exists p :: p in w.providers && p.active && p.description !in {IDENTITY_MAIL_DESCRIPTION, SMTP_DESCRIPTION}
    ensures Reconcile(w, endpoint, keys, budget).world == w
  {
    var p :| p in w.providers && p.active && p.description !in {IDENTITY_MAIL_DESCRIPTION, SMTP_DESCRIPTION};
    assert p.Operators();
    var keep := [KeepOperatorProvider];
    assert keep[1..] == [];
    assert Exec(w, keep, endpoint, keys, budget).world == w;
  }

  /** From `w` to `w'` at most one provider is added, ours, and only when there was none; no other provider
      changes except that it may have been deactivated, and ours keeps its place and id. */
  ghost predicate Keeps(w: World, w': World) {
    var n := FirstOurs(w.providers);
    && Open(w')
    && FirstOurs(w'.providers) == n
    && |w.providers| <= |w'.providers| <= (if n == |w.providers| then n + 1 else |w.providers|)
    && (forall i :: 0 <= i < |w.providers| && i != n ==>
          w'.providers[i] == w.providers[i] || w'.providers[i] == w.providers[i].(active := false))
    && (n < |w.providers| ==> w'.providers[n].id == w.providers[n].id)
  }

  lemma KeepsTwice(a: World, b: World, c: World)
    requires Keeps(a, b) && Keeps(b, c)
    ensures Keeps(a, c)
  {
  }

  ghost predicate HasOurs(w: World) {
    FirstOurs(w.providers) < |w.providers|
  }

  ghost function Ours(w: World): Provider
    requires HasOurs(w)
  {
    w.providers[FirstOurs(w.providers)]
  }

  lemma FirstOursIs(providers: seq<Provider>, i: nat)
    requires i <= |providers| && (i < |providers| ==> providers[i].Ours())
    requires forall j :: 0 <= j < i ==> !providers[j].Ours()
    ensures FirstOurs(providers) == i
  {
    hide FirstOurs;
    var k := FirstOurs(providers);
    assert k >= i;
  }

  lemma CreatedKeeps(w: World, endpoint: string, keys: Keys)
    requires Open(w) && !HasOurs(w)
    ensures var w1 := Created(w, endpoint, keys);
            && Keeps(w, w1) && HasOurs(w1)
            && Ours(w1) == Provider(w.nextId, IDENTITY_MAIL_DESCRIPTION, false, endpoint, keys(w.issued))
  {
    var w1 := Created(w, endpoint, keys);
    FirstOursIs(w1.providers, |w.providers|);
  }

  lemma PutKeeps(w: World, endpoint: string, rotate: bool, keys: Keys)
    requires Open(w) && HasOurs(w)
    ensures var w1 := Put(w, Ours(w).id, endpoint, rotate, keys);
            && Keeps(w, w1) && w1.vault == w.vault
            && Ours(w1) == Ours(w).(endpoint := endpoint, key := if rotate then keys(w.issued) else Ours(w).key)
  {
    var n := FirstOurs(w.providers);
    var w1 := Put(w, Ours(w).id, endpoint, rotate, keys);
    assert forall i :: 0 <= i < |w.providers| && i != n ==> w1.providers[i] == w.providers[i];
    FirstOursIs(w1.providers, n);
  }

  lemma ActivatedKeeps(w: World)
    requires Open(w) && HasOurs(w)
    ensures var w1 := Activated(w, Ours(w).id);
            Keeps(w, w1) && w1.vault == w.vault && Ours(w1) == Ours(w).(active := true)
  {
    var n := FirstOurs(w.providers);
    var w1 := Activated(w, Ours(w).id);
    assert forall i :: 0 <= i < |w.providers| && i != n ==> w1.providers[i] == w.providers[i].(active := false);
    FirstOursIs(w1.providers, n);
  }

  // ---------- The vault ----------

  function Vault(w: World): seq<string>
    requires w.vault.Some?
  {
    Readings(Lines(w.vault.value), SIGNING_KEY_VAR)
  }

  lemma SigningKeyIsPlain()
    ensures PlainKey(SIGNING_KEY_VAR)
  {
    hide SIGNING_KEY_VAR, PlainKey;
    SigningKeyChars();
    PlainIfUpperCase(SIGNING_KEY_VAR);
  }

  lemma SigningKeyChars()
    ensures |SIGNING_KEY_VAR| == 34 && SIGNING_KEY_VAR[0] == 'P'
    ensures forall i :: 0 <= i < |SIGNING_KEY_VAR| ==> 'A' <= SIGNING_KEY_VAR[i] <= '_'
  {
  }

  lemma PlainIfUpperCase(key: string)
    requires key != "" && forall i :: 0 <= i < |key| ==> 'A' <= key[i] <= '_'
    ensures PlainKey(key)
  {
    assert "export "[0] == 'e';
  }

  lemma StoredReads(w: World, key: string)
    requires w.vault.Some? && key != "" && Quotable(key) && '"' !in key
    ensures Vault(Stored(w, key)) == [key] + Rest(Vault(w))
    ensures Stored(w, key).HasKey()
  {
    hide Upserted, Readings, HasValue, Lines, LineValue, PlainKey;
    SigningKeyIsPlain();
    ReadingsAfterEdit(w.vault.value, SIGNING_KEY_VAR, key, SIGNING_KEY_VAR);
    NewLineReads(SIGNING_KEY_VAR, key);
    ReadsBackIff(SIGNING_KEY_VAR, key);
    assert key in Vault(Stored(w, key));
    HasValueReadings(Stored(w, key).vault.value, SIGNING_KEY_VAR);
  }

  // ---------- One run ----------

  /** Ours is the active provider at the wanted endpoint and the vault holds a key. */
  ghost predicate Healthy(w: World, endpoint: string) {
    Open(w) && HasOurs(w) && Ours(w).active && Ours(w).endpoint == endpoint && w.HasKey()
  }

  lemma HealthyNeedsNothing(w: World, endpoint: string)
    requires Open(w) && HasOurs(w) && Ours(w).active && Ours(w).endpoint == endpoint
    ensures Plan(w.providers, true, endpoint) == []
  {
  }

  /** Each step is planned exactly when what it brings is missing, for the first provider that is ours. */
  lemma PlanIsWhatIsMissing(providers: seq<Provider>, hasKey: bool, endpoint: string, n: nat)
    requires forall p :: p in providers && p.active ==> p.description in {IDENTITY_MAIL_DESCRIPTION, SMTP_DESCRIPTION}
    requires n <= |providers| && (n < |providers| ==> providers[n].description == IDENTITY_MAIL_DESCRIPTION)
    requires forall j :: 0 <= j < n ==> providers[j].description != IDENTITY_MAIL_DESCRIPTION
    ensures var steps := Plan(providers, hasKey, endpoint);
            && (Create in steps <==> n == |providers|)
            && (forall id :: RotateKey(id) in steps <==> n < |providers| && id == providers[n].id && !hasKey)
            && (forall id :: UpdateEndpoint(id) in steps <==>
                  n < |providers| && id == providers[n].id && hasKey && providers[n].endpoint != endpoint)
            && (forall id :: Activate(id) in steps <==> n < |providers| && id == providers[n].id && !providers[n].active)
            && KeepOperatorProvider !in steps
            && |steps| <= 2 && (|steps| == 2 ==> steps[1].Activate?)
  {
    hide FirstOurs;
    FirstOursIs(providers, n);
  }

  /** postit's webhook is active at the endpoint, and the vault holds a key that is not empty. */
  ghost predicate Delivers(w: World, endpoint: string) {
    && (exists p :: p in w.providers && p.active && p.description == IDENTITY_MAIL_DESCRIPTION && p.endpoint == endpoint)
    && w.vault.Some? && exists v :: v in Vault(w) && v != ""
  }

  lemma HealthyDelivers(w: World, endpoint: string)
    requires Healthy(w, endpoint)
    ensures Delivers(w, endpoint)
  {
    hide HasValue, Readings, Lines, FirstOurs;
    assert Ours(w) in w.providers && Ours(w).Ours();
    HasValueReadings(w.vault.value, SIGNING_KEY_VAR);
    var v :| v in Vault(w) && v != "";
  }

  /** The vault's non-empty readings of the key are all `key`. */
  ghost predicate Only(w: World, key: string)
    requires w.vault.Some?
  {
    forall v :: v in Vault(w) ==> v == "" || v == key
  }

  /** The key the server signs with, or will sign with once it creates our provider. */
  ghost function CurrentKey(w: World, keys: Keys): string {
    if HasOurs(w) then Ours(w).key else keys(w.issued)
  }

  lemma NoKeyReadsNothing(w: World, key: string)
    requires w.vault.Some? && !w.HasKey()
    ensures Only(w, key)
  {
    hide HasValue, Readings, Lines;
    HasValueReadings(w.vault.value, SIGNING_KEY_VAR);
  }

  lemma RestOnly(w: World, key: string)
    requires w.vault.Some? && key != "" && Quotable(key) && '"' !in key
    requires Only(w, key)
    ensures Only(Stored(w, key), key)
  {
    hide Stored, Vault;
    StoredReads(w, key);
    assert forall v :: v in Rest(Vault(w)) ==> v in Vault(w);
  }

  /** A stop after `w`, and what the stop leaves for the next run. */
  ghost predicate Leaves(w: World, e: End, endpoint: string, keys: Keys)
    requires w.vault.Some?
  {
    && Keeps(w, e.world)
    && (e.done ==> Healthy(e.world, endpoint))
    && (Only(w, CurrentKey(w, keys)) ==> Only(e.world, CurrentKey(e.world, keys)))
    && (HasOurs(w) && w.HasKey() ==> Ours(e.world).key == Ours(w).key && e.world.vault == w.vault)
    && (w.HasKey() ==> e.world.HasKey())
    && (Signs(e.world) ==> Signs(w) || e.world.HasKey())
  }

  /** The server already signs mail for the webhook. */
  ghost predicate Signs(w: World) {
    exists p :: p in w.providers && p.active && p.description == IDENTITY_MAIL_DESCRIPTION
  }

  lemma PutSigns(w: World, endpoint: string, rotate: bool, keys: Keys)
    requires Open(w) && HasOurs(w)
    ensures Signs(Put(w, Ours(w).id, endpoint, rotate, keys)) ==> Signs(w)
  {
    var w1 := Put(w, Ours(w).id, endpoint, rotate, keys);
    if Signs(w1) {
      var i :| 0 <= i < |w1.providers| && w1.providers[i].active && w1.providers[i].description == IDENTITY_MAIL_DESCRIPTION;
      assert w.providers[i] in w.providers;
      assert i == FirstOurs(w.providers) || w1.providers[i] == w.providers[i];
    }
  }

  lemma LastStep(w: World, endpoint: string, keys: Keys, budget: nat)
    requires Open(w) && HasOurs(w) && w.HasKey() && Ours(w).endpoint == endpoint
    ensures var steps := if Ours(w).active then [] else [Activate(Ours(w).id)];
            var e := Exec(w, steps, endpoint, keys, budget);
            Leaves(w, e, endpoint, keys) && (budget >= 1 ==> e.done)
  {
    hide HasValue, Readings, Lines, Vault, Put, Stored, Created, Activated, Only, FirstOurs;
    ActivatedKeeps(w);
    assert [Activate(Ours(w).id)][1..] == [];
    var w1 := Activated(w, Ours(w).id);
    SameVaultOnly(w, w1);
    assert Exec(w1, [], endpoint, keys, if budget == 0 then 0 else budget - 1) == End(w1, true);
  }

  lemma SameVaultOnly(w: World, w': World)
    requires w.vault.Some? && w'.vault == w.vault
    ensures forall key :: Only(w, key) ==> Only(w', key)
  {
    hide Readings, Lines;
    assert Vault(w) == Vault(w');
  }

  /** A run that starts with our provider in place. */
  lemma RepairRun(w: World, endpoint: string, keys: Keys, budget: nat)
    requires Open(w) && HasOurs(w) && PlainKeys(keys)
    ensures var e := Reconcile(w, endpoint, keys, budget);
            Leaves(w, e, endpoint, keys) && (budget >= 3 ==> e.done)
  {
    hide HasValue, Readings, Lines, Vault, Put, Stored, Created, Activated, Only, FirstOurs, Keeps, Signs;
    var ours := Ours(w);
    var last := if ours.active then [] else [Activate(ours.id)];
    KeepsItself(w);
    if !w.HasKey() {
      var steps := [RotateKey(ours.id)] + last;
      assert Plan(w.providers, w.HasKey(), endpoint) == steps && steps[1..] == last;
      PutKeeps(w, endpoint, true, keys);
      PutSigns(w, endpoint, true, keys);
      var w1, key := Put(w, ours.id, endpoint, true, keys), keys(w.issued);
      NoKeyReadsNothing(w, key);
      SameVaultOnly(w, w1);
      if budget >= 2 {
        var w2 := Stored(w1, key);
        StoredKeeps(w1, key);
        StoredReads(w1, key);
        RestOnly(w1, key);
        KeepsTwice(w, w1, w2);
        LastStep(w2, endpoint, keys, budget - 2);
        var e := Exec(w2, last, endpoint, keys, budget - 2);
        KeepsTwice(w, w2, e.world);
      }
    } else if ours.endpoint != endpoint {
      var steps := [UpdateEndpoint(ours.id)] + last;
      assert Plan(w.providers, w.HasKey(), endpoint) == steps && steps[1..] == last;
      if budget >= 1 {
        PutKeeps(w, endpoint, false, keys);
        var w1 := Put(w, ours.id, endpoint, false, keys);
        SameVaultOnly(w, w1);
        LastStep(w1, endpoint, keys, budget - 1);
        var e := Exec(w1, last, endpoint, keys, budget - 1);
        KeepsTwice(w, w1, e.world);
      }
    } else {
      assert Plan(w.providers, w.HasKey(), endpoint) == last;
      LastStep(w, endpoint, keys, budget);
    }
  }

  lemma KeepsItself(w: World)
    requires Open(w)
    ensures Keeps(w, w)
  {
  }

  lemma StoredKeeps(w: World, key: string)
    requires Open(w)
    ensures Keeps(w, Stored(w, key)) && Stored(w, key).providers == w.providers
  {
    hide Upserted;
  }

  /** A run that has to create our provider. */
  lemma CreateRun(w: World, endpoint: string, keys: Keys, budget: nat)
    requires Open(w) && !HasOurs(w) && PlainKeys(keys)
    ensures var e := Reconcile(w, endpoint, keys, budget);
            Leaves(w, e, endpoint, keys) && (budget >= 3 ==> e.done)
  {
    hide HasValue, Readings, Lines, Vault, Put, Stored, Created, Activated, Only, FirstOurs, Keeps;
    KeepsItself(w);
    assert Plan(w.providers, w.HasKey(), endpoint) == [Create];
    assert [Create][1..] == [];
    if budget >= 1 {
      CreatedKeeps(w, endpoint, keys);
      var w1, key := Created(w, endpoint, keys), keys(w.issued);
      CreatedVault(w, endpoint, keys);
      SameVaultOnly(w, w1);
      if budget >= 2 {
        var w2 := Stored(w1, key);
        StoredKeeps(w1, key);
        StoredReads(w1, key);
        KeepsTwice(w, w1, w2);
        if Only(w1, key) {
          RestOnly(w1, key);
        }
        if budget >= 3 {
          ActivatedKeeps(w2);
          var w3 := Activated(w2, w.nextId);
          SameVaultOnly(w2, w3);
          KeepsTwice(w, w2, w3);
          assert Exec(w3, [], endpoint, keys, budget - 3) == End(w3, true);
        }
      }
    }
  }

  lemma CreatedVault(w: World, endpoint: string, keys: Keys)
    ensures Created(w, endpoint, keys).vault == w.vault
  {
  }

  lemma OneRun(w: World, endpoint: string, keys: Keys, budget: nat)
    requires Open(w) && PlainKeys(keys)
    ensures var e := Reconcile(w, endpoint, keys, budget);
            Leaves(w, e, endpoint, keys) && (budget >= 3 ==> e.done)
  {
    hide Leaves, Reconcile;
    if HasOurs(w) {
      RepairRun(w, endpoint, keys, budget);
    } else {
      CreateRun(w, endpoint, keys, budget);
    }
  }

  // ---------- Interrupted runs, then one that completes ----------

  /** One run of a series: the endpoint it wants and after how many calls and writes it stops. */
  datatype Attempt = Attempt(endpoint: string, budget: nat)

  function After(w: World, runs: seq<Attempt>, keys: Keys): World
    decreases |runs|
  {
    if runs == [] then w else After(Reconcile(w, runs[0].endpoint, keys, runs[0].budget).world, runs[1..], keys)
  }

  lemma {:induction false} SeriesKeeps(w: World, runs: seq<Attempt>, keys: Keys)
    requires Open(w) && PlainKeys(keys)
    ensures Keeps(w, After(w, runs, keys))
    ensures Only(w, CurrentKey(w, keys)) ==> Only(After(w, runs, keys), CurrentKey(After(w, runs, keys), keys))
    decreases |runs|
  {
    hide Reconcile, Only, Keeps;
    if runs == [] {
      KeepsItself(w);
    } else {
      var w1 := Reconcile(w, runs[0].endpoint, keys, runs[0].budget).world;
      OneRun(w, runs[0].endpoint, keys, runs[0].budget);
      KeepsOpen(w, w1);
      SeriesKeeps(w1, runs[1..], keys);
      KeepsTwice(w, w1, After(w1, runs[1..], keys));
    }
  }

  /** Wherever runs are stopped, the webhook is activated only once the vault holds a key, and a key in the
      vault is never lost. */
  lemma {:induction false} ActivatedOnlyWithKey(w: World, runs: seq<Attempt>, keys: Keys)
    requires Open(w) && PlainKeys(keys)
    ensures var w1 := After(w, runs, keys);
            && (w.HasKey() ==> w1.HasKey())
            && ((exists p :: p in w1.providers && p.active && p.description == IDENTITY_MAIL_DESCRIPTION) ==>
                  w1.HasKey() || exists p :: p in w.providers && p.active && p.description == IDENTITY_MAIL_DESCRIPTION)
    decreases |runs|
  {
    hide Reconcile, Only, Keeps, HasValue;
    if runs != [] {
      var w1 := Reconcile(w, runs[0].endpoint, keys, runs[0].budget).world;
      OneRun(w, runs[0].endpoint, keys, runs[0].budget);
      KeepsOpen(w, w1);
      ActivatedOnlyWithKey(w1, runs[1..], keys);
    }
  }

  lemma KeepsOpen(w: World, w': World)
    requires Keeps(w, w')
    ensures Open(w')
  {
  }

  /** Convergence. After any series of runs stopped anywhere, a run that completes leaves our provider active
      at the wanted endpoint, a key in the vault and an empty plan; over the whole series at most one provider
      was added, and any run of at least three calls and writes completes. */
  lemma Converges(w: World, runs: seq<Attempt>, endpoint: string, keys: Keys, budget: nat)
    requires w.Valid() && w.vault.Some? && PlainKeys(keys)
    requires forall p :: p in w.providers && p.active ==> p.description in {IDENTITY_MAIL_DESCRIPTION, SMTP_DESCRIPTION}
    ensures var e := Reconcile(After(w, runs, keys), endpoint, keys, budget);
            && (budget >= 3 ==> e.done)
            && Keeps(w, e.world)
            && (e.done ==> Delivers(e.world, endpoint) && Plan(e.world.providers, e.world.HasKey(), endpoint) == [])
  {
    hide Reconcile, Keeps, HasValue, Plan, Delivers;
    var w1 := After(w, runs, keys);
    SeriesKeeps(w, runs, keys);
    KeepsOpen(w, w1);
    OneRun(w1, endpoint, keys, budget);
    var e := Reconcile(w1, endpoint, keys, budget);
    KeepsTwice(w, w1, e.world);
    if e.done {
      HealthyNeedsNothing(e.world, endpoint);
      HealthyDelivers(e.world, endpoint);
    }
  }

  /** On a server with at most one active provider, a run of at least three calls and writes ends with the
      webhook active at the endpoint exactly when nobody else's provider was active. */
  lemma ActiveIffNoOperators(w: World, endpoint: string, keys: Keys, budget: nat)
    requires w.Valid() && w.vault.Some? && PlainKeys(keys) && budget >= 3
    requires forall p, q :: p in w.providers && q in w.providers && p.active && q.active ==> p == q
    ensures Delivers(Reconcile(w, endpoint, keys, budget).world, endpoint) <==>
            forall p :: p in w.providers && p.active ==> p.description in {IDENTITY_MAIL_DESCRIPTION, SMTP_DESCRIPTION}
  {
    hide Reconcile, Healthy, Vault;
    if forall p :: p in w.providers && p.active ==> p.description in {IDENTITY_MAIL_DESCRIPTION, SMTP_DESCRIPTION} {
      OneRun(w, endpoint, keys, budget);
      HealthyDelivers(Reconcile(w, endpoint, keys, budget).world, endpoint);
    } else {
      OperatorIsLeftAlone(w, endpoint, keys, budget);
    }
  }

  /** The vault's key is the one our provider signs with. */
  ghost predicate Agrees(w: World) {
    w.vault.Some? && HasOurs(w) && w.HasKey() && Only(w, Ours(w).key)
  }

  /** Every series of interrupted runs, followed by one that completes, ends in agreement. */
  ghost predicate AlwaysAgrees(w: World, endpoint: string, keys: Keys) {
    forall runs: seq<Attempt>, budget: nat ::
      var e := Reconcile(After(w, runs, keys), endpoint, keys, budget);
      e.done ==> Agrees(e.world)
  }

  /** What to check before the first run: the vault holds no key, or our provider exists and it is its key. */
  ghost predicate TrustsVault(w: World) {
    w.vault.Some? && (!w.HasKey() || (HasOurs(w) && Only(w, Ours(w).key)))
  }

  /** The runs end in agreement, wherever they are interrupted, exactly from a vault that can be trusted.
      A stale key in the vault is never noticed, also when the run that creates our provider stops before
      storing the new one. Fresh keys are ones the vault does not hold. */
  lemma AgreesIffVaultTrusted(w: World, endpoint: string, keys: Keys)
    requires Open(w) && PlainKeys(keys)
    requires keys(w.issued) !in Vault(w)
    ensures AlwaysAgrees(w, endpoint, keys) <==> TrustsVault(w)
  {
    hide Reconcile, After, HasValue, Readings, Lines, Vault, Only, Keeps, PlainKeys;
    if TrustsVault(w) {
      if !w.HasKey() {
        NoKeyReadsNothing(w, CurrentKey(w, keys));
      }
      forall runs: seq<Attempt>, budget: nat
        ensures var e := Reconcile(After(w, runs, keys), endpoint, keys, budget);
                e.done ==> Agrees(e.world)
      {
        var w1 := After(w, runs, keys);
        SeriesKeeps(w, runs, keys);
        KeepsOpen(w, w1);
        OneRun(w1, endpoint, keys, budget);
      }
    } else if HasOurs(w) {
      AfterNone(w, keys);
      StaleStays(w, [], endpoint, keys);
    } else {
      StoppedCreate(w, endpoint, keys);
      StaleStays(w, [Attempt(endpoint, 1)], endpoint, keys);
    }
  }

  lemma AfterNone(w: World, keys: Keys)
    ensures After(w, [], keys) == w
  {
  }

  /** A vault whose key is not our provider's stays that way through a complete run. */
  lemma StaleStays(w: World, runs: seq<Attempt>, endpoint: string, keys: Keys)
    requires Open(w) && PlainKeys(keys)
    ensures var w1 := After(w, runs, keys);
            HasOurs(w1) && w1.HasKey() && w1.vault.Some? && !Only(w1, Ours(w1).key) ==> !AlwaysAgrees(w, endpoint, keys)
  {
    hide Reconcile, After, HasValue, Readings, Lines, Vault, Only, Keeps, PlainKeys;
    var w1 := After(w, runs, keys);
    if !HasOurs(w1) || !w1.HasKey() || w1.vault.None? || Only(w1, Ours(w1).key) {
      return;
    }
    SeriesKeeps(w, runs, keys);
    KeepsOpen(w, w1);
    OneRun(w1, endpoint, keys, 3);
    var e := Reconcile(w1, endpoint, keys, 3);
    KeepsOpen(w1, e.world);
    SameVaultOnly(e.world, w1);
    assert e.done && !Agrees(e.world);
  }

  lemma StoppedCreate(w: World, endpoint: string, keys: Keys)
    requires Open(w) && PlainKeys(keys) && !HasOurs(w)
    ensures var w1 := After(w, [Attempt(endpoint, 1)], keys);
            w.HasKey() && keys(w.issued) !in Vault(w) ==>
              HasOurs(w1) && w1.HasKey() && w1.vault.Some? && !Only(w1, Ours(w1).key)
  {
    hide HasValue, Readings, Lines;
    if !w.HasKey() || keys(w.issued) in Vault(w) {
      return;
    }
    var runs := [Attempt(endpoint, 1)];
    assert runs[1..] == [];
    assert Plan(w.providers, w.HasKey(), endpoint) == [Create];
    var w1 := Created(w, endpoint, keys);
    CreatedKeeps(w, endpoint, keys);
    assert After(w1, [], keys) == w1;
    assert After(w, runs, keys) == w1;
    HasValueReadings(w.vault.value, SIGNING_KEY_VAR);
    var v :| v in Vault(w) && v != "";
    assert v in Vault(w1) && v != Ours(w1).key;
  }
}
