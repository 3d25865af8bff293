/** The reconciler of the login page's label policy: colors, logos and font on the pending policy, then
    activation. The server holds a pending and an active policy; a run may stop after any mutating call. */
module Branding {
  import opened Wrappers
  import Logo

  /** A policy field: a text, a flag, or the address of an uploaded file together with the file. */
  datatype Field = Text(s: string) | Flag(b: bool) | File(address: nat, bytes: seq<byte>)

  type Policy = map<string, Field>

  /** What reading a policy returns: empty texts and false flags are left out. */
  function View(p: Policy): Policy {
    map k | k in p && p[k] != Text("") && p[k] != Flag(false) :: p[k]
  }

  /** The wanted policy, in the light and the dark theme: `fontColorDark` is what the dark logo is drawn in. */
  const LABEL_POLICY: Policy := map[
    "primaryColor" := Text("#df528a"),
    "backgroundColor" := Text("#f8fafc"),
    "fontColor" := Text("#1f1e24"),
    "warnColor" := Text("#b91c1c"),
    "primaryColorDark" := Text("#f27aa6"),
    "backgroundColorDark" := Text("#1f1e24"),
    "fontColorDark" := Text(Logo.FONT_COLOR_DARK),
    "warnColorDark" := Text("#f87171"),
    "hideLoginNameSuffix" := Flag(false),
    "disableWatermark" := Flag(false),
    "themeMode" := Text("THEME_MODE_AUTO")
  ]

  const ASSET_FIELDS := ["logoUrl", "logoUrlDark", "fontUrl"]

  /** The policy, as read, already has every field of `body`; a missing flag counts as false. */
  predicate IsCurrent(body: Policy, policy: Policy) {
    forall name :: name in body ==> if name in policy then policy[name] == body[name] else body[name] == Flag(false)
  }

  datatype Asset = Asset(field: string, bytes: seq<byte>)

  datatype Server = Server(pending: Policy, active: Policy, uploads: nat) {
    /** The file behind a field that the server serves, when it can be read. */
    function Served(view: Policy, field: string, readable: string -> bool): seq<seq<byte>> {
      if field in view && view[field].File? && readable(field) then [view[field].bytes] else []
    }
  }

  // ---------- Mutating calls ----------

  function PutColors(s: Server, body: Policy): Server {
    s.(pending := s.pending + body)
  }

  function Upload(s: Server, a: Asset): Server {
    s.(pending := s.pending[a.field := File(s.uploads, a.bytes)], uploads := s.uploads + 1)
  }

  function Activate(s: Server): Server {
    s.(active := s.pending)
  }

  // ---------- A run that may stop after any mutating call ----------

  /** The state left behind, the calls still allowed, and whether the run got this far. */
  datatype End = End(server: Server, budget: nat, done: bool)

  function Colors(s: Server, body: Policy, budget: nat): End {
    if IsCurrent(body, View(s.pending)) then End(s, budget, true)
    else if budget == 0 then End(s, 0, false)
    else End(PutColors(s, body), budget - 1, true)
  }

  /** Uploads the assets whose served bytes differ; `view` is the pending policy as read before the first upload. */
  function Uploads(s: Server, view: Policy, assets: seq<Asset>, readable: string -> bool, budget: nat): End
    decreases |assets|
  {
    if assets == [] then End(s, budget, true)
    else if s.Served(view, assets[0].field, readable) == [assets[0].bytes] then
      Uploads(s, view, assets[1..], readable, budget)
    else if budget == 0 then End(s, 0, false)
    else Uploads(Upload(s, assets[0]), view, assets[1..], readable, budget - 1)
  }

  function Activation(s: Server, budget: nat): End {
    if View(s.pending) == View(s.active) then End(s, budget, true)
    else if budget == 0 then End(s, 0, false)
    else End(Activate(s), budget - 1, true)
  }

  function Reconcile(s: Server, body: Policy, assets: seq<Asset>, readable: string -> bool, budget: nat): End {
    var a := Colors(s, body, budget);
    if !a.done then a
    else
      var b := Uploads(a.server, View(a.server.pending), assets, readable, a.budget);
      if !b.done then b else Activation(b.server, b.budget)
  }

  /** The executor, with the server as its state. */
  class Executor {
    var pending: Policy
    var active: Policy
    var uploads: nat
    var budget: nat

    constructor (s: Server, budget: nat)
      ensures Now() == s && this.budget == budget
    {
      pending, active, uploads := s.pending, s.active, s.uploads;
      this.budget := budget;
    }

    function Now(): Server
      reads this
    {
      Server(pending, active, uploads)
    }

    method SetColors(body: Policy) returns (done: bool)
      modifies this
      ensures End(Now(), budget, done) == Colors(old(Now()), body, old(budget))
    {
      if !IsCurrent(body, View(pending)) {
        if budget == 0 {
          return false;
        }
        pending, budget := pending + body, budget - 1;
      }
      return true;
    }

    method UploadAssets(assets: seq<Asset>, readable: string -> bool) returns (done: bool)
      modifies this
      ensures End(Now(), budget, done) == Uploads(old(Now()), View(old(pending)), assets, readable, old(budget))
    {
      hide View;
      var view := View(pending);
      var i := 0;
      while i < |assets|
        invariant 0 <= i <= |assets|
        invariant Uploads(old(Now()), view, assets, readable, old(budget)) == Uploads(Now(), view, assets[i..], readable, budget)
      {
        var asset := assets[i];
        assert assets[i..][1..] == assets[i + 1..];
        i := i + 1;
        var current := Now().Served(view, asset.field, readable);
        if current != [asset.bytes] {
          if budget == 0 {
            return false;
          }
          pending := pending[asset.field := File(uploads, asset.bytes)];
          uploads, budget := uploads + 1, budget - 1;
        }
      }
      return true;
    }

    method ActivatePending() returns (done: bool)
      modifies this
      ensures End(Now(), budget, done) == Activation(old(Now()), old(budget))
    {
      if View(pending) != View(active) {
        if budget == 0 {
          return false;
        }
        active, budget := pending, budget - 1;
      }
      return true;
    }

    method EnsureBranding(body: Policy, assets: seq<Asset>, readable: string -> bool) returns (done: bool)
      modifies this
      ensures End(Now(), budget, done) == Reconcile(old(Now()), body, assets, readable, old(budget))
    {
      hide Colors, Uploads, Activation, View;
      done := SetColors(body);
      if done {
        done := UploadAssets(assets, readable);
      }
      if done {
        done := ActivatePending();
      }
    }
  }

  // ---------- What a run reaches and keeps ----------

  /** Every color is a non-empty text or a flag; the asset fields are distinct and not among the colors. */
  ghost predicate WellFormed(body: Policy, assets: seq<Asset>) {
    && (forall k :: k in body ==> !body[k].File? && body[k] != Text(""))
    && (forall i :: 0 <= i < |assets| ==> assets[i].field !in body)
    && (forall i, j :: 0 <= i < j < |assets| ==> assets[i].field != assets[j].field)
  }

  ghost predicate HasAsset(p: Policy, a: Asset) {
    a.field in p && p[a.field].File? && p[a.field].bytes == a.bytes
  }

  /** The policy has every wanted text and flag; a wanted false may be absent, or empty, which reads the same. */
  ghost predicate Wears(p: Policy, body: Policy) {
    forall name :: name in body ==>
      if body[name] == Flag(false) then name in p ==> p[name] == Flag(false) || p[name] == Text("")
      else name in p && p[name] == body[name] && body[name] != Text("")
  }

  lemma CurrentIffWears(p: Policy, body: Policy)
    ensures IsCurrent(body, View(p)) <==> Wears(p, body)
  {
    forall name | name in body
      ensures (if name in View(p) then View(p)[name] == body[name] else body[name] == Flag(false)) <==>
              if body[name] == Flag(false) then name in p ==> p[name] == Flag(false) || p[name] == Text("")
              else name in p && p[name] == body[name] && body[name] != Text("")
    {
    }
  }

  /** The policy shows every wanted color and serves every wanted file. */
  ghost predicate Branded(p: Policy, body: Policy, assets: seq<Asset>) {
    Wears(p, body) && forall i :: 0 <= i < |assets| ==> HasAsset(p, assets[i])
  }

  /** Outside the colors and the asset fields nothing differs. */
  ghost predicate SameElsewhere(p: Policy, q: Policy, body: Policy, assets: seq<Asset>) {
    forall k :: k !in body && (forall i :: 0 <= i < |assets| ==> assets[i].field != k) ==>
                  (k in p <==> k in q) && (k in p ==> p[k] == q[k])
  }

  lemma {:induction false} UploadsReach(s: Server, view: Policy, assets: seq<Asset>, readable: string -> bool, budget: nat,
                                        body: Policy, all: seq<Asset>, k: nat)
    requires k <= |all| && assets == all[k..] && WellFormed(body, all)
    requires IsCurrent(body, View(s.pending))
    requires forall i :: 0 <= i < k ==> HasAsset(s.pending, all[i])
    requires forall i :: k <= i < |all| ==> (all[i].field in view && view[all[i].field].File? ==>
                                               all[i].field in s.pending && s.pending[all[i].field] == view[all[i].field])
    ensures var e := Uploads(s, view, assets, readable, budget);
            && e.server.active == s.active
            && SameElsewhere(s.pending, e.server.pending, body, all)
            && (e.done ==> Branded(e.server.pending, body, all))
    decreases |assets|
  {
    hide View, IsCurrent, SameElsewhere, Wears;
    SameElsewhereItself(s.pending, body, all);
    CurrentIffWears(s.pending, body);
    if assets != [] {
      var a := assets[0];
      assert a == all[k] && assets[1..] == all[k + 1..];
      if s.Served(view, a.field, readable) == [a.bytes] {
        UploadsReach(s, view, assets[1..], readable, budget, body, all, k + 1);
      } else if budget > 0 {
        var t := Upload(s, a);
        ColorsStay(s.pending, body, a.field, File(s.uploads, a.bytes));
        SetAsset(s.pending, body, all, k, File(s.uploads, a.bytes));
        UploadsReach(t, view, assets[1..], readable, budget - 1, body, all, k + 1);
        SameElsewhereTwice(s.pending, t.pending, Uploads(t, view, assets[1..], readable, budget - 1).server.pending, body, all);
      }
    }
  }

  lemma SetAsset(p: Policy, body: Policy, all: seq<Asset>, k: nat, f: Field)
    requires k < |all|
    ensures SameElsewhere(p, p[all[k].field := f], body, all)
  {
  }

  lemma ColorsStay(p: Policy, body: Policy, field: string, f: Field)
    requires IsCurrent(body, View(p)) && field !in body
    ensures IsCurrent(body, View(p[field := f]))
  {
  }

  lemma ColorsReach(s: Server, body: Policy, assets: seq<Asset>, budget: nat)
    requires WellFormed(body, assets)
    ensures var e := Colors(s, body, budget);
            && e.server.active == s.active
            && SameElsewhere(s.pending, e.server.pending, body, assets)
            && (e.done ==> IsCurrent(body, View(e.server.pending)))
  {
  }

  /** From any server state, a run that completes leaves pending and active the same, as read, with every
      wanted color and file; every other field of the pending policy is as it was. However far a run gets,
      the active policy is either untouched or fully branded: no half of the branding is ever shown. */
  lemma RunBrands(s: Server, body: Policy, assets: seq<Asset>, readable: string -> bool, budget: nat)
    requires WellFormed(body, assets)
    ensures var e := Reconcile(s, body, assets, readable, budget);
            && SameElsewhere(s.pending, e.server.pending, body, assets)
            && (e.server.active == s.active || (e.server.active == e.server.pending && Branded(e.server.active, body, assets)))
            && (e.done ==> View(e.server.pending) == View(e.server.active) && Branded(e.server.pending, body, assets))
            && (e.done ==>
                  && (forall name :: name in body && body[name] != Flag(false) ==>
                        name in e.server.active && e.server.active[name] == body[name])
                  && (forall name :: name in body && name in e.server.active && body[name] == Flag(false) ==>
                        e.server.active[name] == Flag(false) || e.server.active[name] == Text(""))
                  && (forall a :: a in assets ==>
                        a.field in e.server.active && e.server.active[a.field].File? && e.server.active[a.field].bytes == a.bytes))
  {
    hide IsCurrent, View, SameElsewhere, WellFormed, HasAsset, Wears;
    var a := Colors(s, body, budget);
    ColorsReach(s, body, assets, budget);
    if a.done {
      var view := View(a.server.pending);
      ViewFiles(a.server.pending);
      assert assets[0..] == assets;
      UploadsReach(a.server, view, assets, readable, a.budget, body, assets, 0);
      var b := Uploads(a.server, view, assets, readable, a.budget);
      SameElsewhereTwice(s.pending, a.server.pending, b.server.pending, body, assets);
    }
    var e := Reconcile(s, body, assets, readable, budget);
    if e.done {
      SameViewBranded(e.server.pending, e.server.active, body, assets);
      BrandedEntries(e.server.active, body, assets);
    }
  }

  lemma SameViewBranded(p: Policy, q: Policy, body: Policy, assets: seq<Asset>)
    requires View(p) == View(q) && Branded(p, body, assets)
    ensures Branded(q, body, assets)
  {
    hide IsCurrent, Wears;
    CurrentIffWears(p, body);
    CurrentIffWears(q, body);
    forall i | 0 <= i < |assets| ensures HasAsset(q, assets[i]) {
      assert HasAsset(p, assets[i]);
      assert assets[i].field in View(p);
    }
  }

  lemma BrandedEntries(p: Policy, body: Policy, assets: seq<Asset>)
    requires Branded(p, body, assets)
    ensures forall name :: name in body && body[name] != Flag(false) ==> name in p && p[name] == body[name]
    ensures forall name :: name in body && name in p && body[name] == Flag(false) ==> p[name] == Flag(false) || p[name] == Text("")
    ensures forall a :: a in assets ==> a.field in p && p[a.field].File? && p[a.field].bytes == a.bytes
  {
    forall a | a in assets ensures a.field in p && p[a.field].File? && p[a.field].bytes == a.bytes {
      var i :| 0 <= i < |assets| && assets[i] == a;
      assert HasAsset(p, assets[i]);
    }
  }

  lemma ViewFiles(p: Policy)
    ensures forall k :: k in View(p) ==> k in p && View(p)[k] == p[k]
  {
  }

  lemma SameElsewhereTwice(p: Policy, q: Policy, r: Policy, body: Policy, assets: seq<Asset>)
    requires SameElsewhere(p, q, body, assets) && SameElsewhere(q, r, body, assets)
    ensures SameElsewhere(p, r, body, assets)
  {
  }

  // ---------- Series of runs ----------

  datatype Attempt = Attempt(readable: string -> bool, budget: nat)

  function After(s: Server, body: Policy, assets: seq<Asset>, runs: seq<Attempt>): Server
    decreases |runs|
  {
    if runs == [] then s
    else After(Reconcile(s, body, assets, runs[0].readable, runs[0].budget).server, body, assets, runs[1..])
  }

  /** Through any series of interrupted runs the login page shows the old branding or all of the new one. */
  lemma {:induction false} NeverHalfBranded(s: Server, body: Policy, assets: seq<Asset>, runs: seq<Attempt>)
    requires WellFormed(body, assets)
    ensures var t := After(s, body, assets, runs);
            && SameElsewhere(s.pending, t.pending, body, assets)
            && (t.active == s.active || Branded(t.active, body, assets))
            && (t.active != s.active ==>
                  && (forall name :: name in body && body[name] != Flag(false) ==>
                        name in t.active && t.active[name] == body[name])
                  && (forall name :: name in body && name in t.active && body[name] == Flag(false) ==>
                        t.active[name] == Flag(false) || t.active[name] == Text(""))
                  && (forall a :: a in assets ==>
                        a.field in t.active && t.active[a.field].File? && t.active[a.field].bytes == a.bytes))
    decreases |runs|
  {
    hide Reconcile, Branded, SameElsewhere, WellFormed;
    if Branded(After(s, body, assets, runs).active, body, assets) {
      BrandedEntries(After(s, body, assets, runs).active, body, assets);
    }
    if runs == [] {
      SameElsewhereItself(s.pending, body, assets);
    } else {
      var t := Reconcile(s, body, assets, runs[0].readable, runs[0].budget).server;
      RunBrands(s, body, assets, runs[0].readable, runs[0].budget);
      NeverHalfBranded(t, body, assets, runs[1..]);
      SameElsewhereTwice(s.pending, t.pending, After(t, body, assets, runs[1..]).pending, body, assets);
    }
  }

  lemma SameElsewhereItself(p: Policy, body: Policy, assets: seq<Asset>)
    ensures SameElsewhere(p, p, body, assets)
  {
  }

  /** Once branded, a run makes no mutating call at all exactly when every wanted file can be read: a file that
      cannot be read is uploaded again. */
  lemma FurtherRunIsSilent(s: Server, body: Policy, assets: seq<Asset>, readable: string -> bool, budget: nat)
    requires View(s.pending) == View(s.active) && Branded(s.pending, body, assets)
    ensures Reconcile(s, body, assets, readable, budget) == End(s, budget, true) <==>
            forall i :: 0 <= i < |assets| ==> readable(assets[i].field)
  {
    CurrentIffWears(s.pending, body);
    assert assets[0..] == assets;
    if forall i :: 0 <= i < |assets| ==> readable(assets[i].field) {
      SilentUploads(s, body, assets, readable, budget, 0);
    } else {
      var i :| 0 <= i < |assets| && !readable(assets[i].field);
      UnreadableUploads(s, View(s.pending), assets, readable, budget, i);
    }
  }

  /** Uploads only spend calls, and an unreadable file spends one or stops the run. */
  lemma {:induction false} UnreadableUploads(s: Server, view: Policy, assets: seq<Asset>, readable: string -> bool, budget: nat, i: nat)
    ensures var e := Uploads(s, view, assets, readable, budget);
            && e.budget <= budget
            && (i < |assets| && !readable(assets[i].field) ==> !e.done || e.budget < budget)
    decreases |assets|
  {
    hide View, IsCurrent;
    if assets != [] {
      var j := if i == 0 then 0 else i - 1;
      UnreadableUploads(s, view, assets[1..], readable, budget, j);
      if budget > 0 {
        UnreadableUploads(Upload(s, assets[0]), view, assets[1..], readable, budget - 1, j);
      }
    }
  }

  lemma {:induction false} SilentUploads(s: Server, body: Policy, assets: seq<Asset>, readable: string -> bool, budget: nat, k: nat)
    requires Branded(s.pending, body, assets) && k <= |assets|
    requires forall i :: 0 <= i < |assets| ==> readable(assets[i].field)
    ensures Uploads(s, View(s.pending), assets[k..], readable, budget) == End(s, budget, true)
    decreases |assets| - k
  {
    if k < |assets| {
      SilentUploads(s, body, assets, readable, budget, k + 1);
      assert assets[k..][1..] == assets[k + 1..];
      assert HasAsset(s.pending, assets[k]);
    }
  }

  /** How many assets are not served as wanted, or cannot be read. */
  ghost function Stale(p: Policy, assets: seq<Asset>, readable: string -> bool): nat {
    if assets == [] then 0
    else
      var a := assets[0];
      (if a.field in p && p[a.field].File? && p[a.field].bytes == a.bytes && readable(a.field) then 0 else 1)
      + Stale(p, assets[1..], readable)
  }

  lemma {:induction false} UploadsSpend(s: Server, view: Policy, assets: seq<Asset>, readable: string -> bool, budget: nat)
    ensures var e := Uploads(s, view, assets, readable, budget);
            e.done ==> budget - e.budget == Stale(view, assets, readable)
    decreases |assets|
  {
    if assets != [] {
      UploadsSpend(s, view, assets[1..], readable, budget);
      if budget > 0 {
        UploadsSpend(Upload(s, assets[0]), view, assets[1..], readable, budget - 1);
      }
    }
  }

  lemma {:induction false} SameStale(p: Policy, q: Policy, assets: seq<Asset>, readable: string -> bool)
    requires forall a :: a in assets ==> (a.field in p && p[a.field].File? <==> a.field in q && q[a.field].File?)
    requires forall a :: a in assets && a.field in p && p[a.field].File? ==> q[a.field] == p[a.field]
    ensures Stale(p, assets, readable) == Stale(q, assets, readable)
    decreases |assets|
  {
    if assets != [] {
      assert assets[0] in assets;
      SameStale(p, q, assets[1..], readable);
    }
  }

  /** A run that completes makes exactly the calls it needs: one if a color differs, one for each asset that is
      not served as wanted, and one if the policies then read differently. */
  lemma CallsAreNeeded(s: Server, body: Policy, assets: seq<Asset>, readable: string -> bool, budget: nat)
    requires WellFormed(body, assets)
    ensures var e := Reconcile(s, body, assets, readable, budget);
            e.done ==>
              budget - e.budget == (if Wears(s.pending, body) then 0 else 1) + Stale(s.pending, assets, readable)
                                   + (if View(e.server.pending) == View(s.active) then 0 else 1)
  {
    hide IsCurrent, Wears, Stale;
    CurrentIffWears(s.pending, body);
    var a := Colors(s, body, budget);
    if a.done {
      var view := View(a.server.pending);
      UploadsSpend(a.server, view, assets, readable, a.budget);
      assert forall i :: 0 <= i < |assets| ==> assets[i].field !in body;
      SameStale(s.pending, view, assets, readable);
      UploadsKeepActive(a.server, view, assets, readable, a.budget);
    }
  }

  lemma {:induction false} UploadsKeepActive(s: Server, view: Policy, assets: seq<Asset>, readable: string -> bool, budget: nat)
    ensures Uploads(s, view, assets, readable, budget).server.active == s.active
    decreases |assets|
  {
    if assets != [] {
      UploadsKeepActive(s, view, assets[1..], readable, budget);
      if budget > 0 {
        UploadsKeepActive(Upload(s, assets[0]), view, assets[1..], readable, budget - 1);
      }
    }
  }

  /** Convergence. After any series of interrupted runs a run that completes leaves pending and active the same,
      with every wanted color and file, and a further run makes no call exactly when it can read the files. Two
      calls more than there are assets are always enough to complete. */
  lemma BrandingConverges(s: Server, body: Policy, assets: seq<Asset>, runs: seq<Attempt>,
                          readable: string -> bool, budget: nat, readableNext: string -> bool, next: nat)
    requires WellFormed(body, assets)
    ensures var e := Reconcile(After(s, body, assets, runs), body, assets, readable, budget);
            && (budget >= |assets| + 2 ==> e.done)
            && (e.done ==>
                  && View(e.server.pending) == View(e.server.active)
                  && Branded(e.server.pending, body, assets)
                  && (Reconcile(e.server, body, assets, readableNext, next) == End(e.server, next, true) <==>
                        forall i :: 0 <= i < |assets| ==> readableNext(assets[i].field)))
  {
    hide Reconcile, After, View, Branded, WellFormed;
    var t := After(s, body, assets, runs);
    RunBrands(t, body, assets, readable, budget);
    EnoughBudget(t, body, assets, readable, budget);
    var e := Reconcile(t, body, assets, readable, budget);
    if e.done {
      FurtherRunIsSilent(e.server, body, assets, readableNext, next);
    }
  }

  lemma EnoughBudget(s: Server, body: Policy, assets: seq<Asset>, readable: string -> bool, budget: nat)
    ensures budget >= |assets| + 2 ==> Reconcile(s, body, assets, readable, budget).done
  {
    hide IsCurrent, View;
    var a := Colors(s, body, budget);
    if a.done {
      EnoughUploads(a.server, View(a.server.pending), assets, readable, a.budget);
    }
  }

  lemma {:induction false} EnoughUploads(s: Server, view: Policy, assets: seq<Asset>, readable: string -> bool, budget: nat)
    ensures var e := Uploads(s, view, assets, readable, budget);
            budget >= |assets| ==> e.done && e.budget >= budget - |assets|
    decreases |assets|
  {
    if assets != [] {
      EnoughUploads(s, view, assets[1..], readable, budget);
      if budget > 0 {
        EnoughUploads(Upload(s, assets[0]), view, assets[1..], readable, budget - 1);
      }
    }
  }

  /** A wanted empty text would never read as current, so every run would write the colors again. */
  lemma EmptyColorIsNeverCurrent(body: Policy, policy: Policy, name: string)
    requires name in body && body[name] == Text("")
    ensures !IsCurrent(body, View(policy))
  {
    assert name in View(policy) ==> View(policy)[name] != body[name];
  }

  /** postit's own colors and assets are such that the runs converge. */
  lemma LabelPolicyIsWellFormed(logo: seq<byte>, dark: seq<byte>, font: seq<byte>)
    ensures WellFormed(LABEL_POLICY,
                       [Asset(ASSET_FIELDS[0], logo), Asset(ASSET_FIELDS[1], dark), Asset(ASSET_FIELDS[2], font)])
    ensures LABEL_POLICY["fontColorDark"] == Text(Logo.FONT_COLOR_DARK) == Text("#f8fafc")
  {
    hide LABEL_POLICY, ASSET_FIELDS;
    ColorsGiven();
    AssetFieldsApart();
  }

  lemma ColorsGiven()
    ensures forall k :: k in LABEL_POLICY ==> !LABEL_POLICY[k].File? && LABEL_POLICY[k] != Text("")
    ensures "fontColorDark" in LABEL_POLICY && LABEL_POLICY["fontColorDark"] == Text(Logo.FONT_COLOR_DARK) == Text("#f8fafc")
  {
  }

  lemma AssetFieldsApart()
    ensures |ASSET_FIELDS| == 3
    ensures forall i :: 0 <= i < |ASSET_FIELDS| ==> ASSET_FIELDS[i] !in LABEL_POLICY
    ensures forall i, j :: 0 <= i < j < |ASSET_FIELDS| ==> ASSET_FIELDS[i] != ASSET_FIELDS[j]
  {
    hide LABEL_POLICY;
    ColorNameLengths();
    assert ASSET_FIELDS[0][0] != ASSET_FIELDS[2][0];
    assert |ASSET_FIELDS[0]| == 7 && |ASSET_FIELDS[1]| == 11 && |ASSET_FIELDS[2]| == 7;
  }

  lemma ColorNameLengths()
    ensures forall name :: name in LABEL_POLICY ==> |name| != 7 && |name| != 11
  {
  }
}
