/** The silent session restore of one browser tab, over any number of page loads.

    A page that finds no session sends the tab to the identity provider once, without a prompt. A mark in
    the tab's session storage says that this was tried. `Tab` is the tab's state with a log of what
    happened; `Adapter` is the component, with its ref, its state and its effects. */
module SessionRestore {
  import opened Wrappers

  /** What session storage allows in this tab; what it does not allow throws. A redirect to the identity
      provider first saves its own state in the same storage, so it fails where writes are refused. */
  datatype Storage = Storage(canRead: bool, canWrite: bool, canRemove: bool)

  datatype Mark = Loaded | SilentRedirect | SignedIn | SignOut

  /** One page: the `started` ref, the component's state, the provider's state and the values the two
      effects last ran with. */
  datatype Page = Page(started: bool, restoring: bool, wasSignedIn: bool, onCallback: bool,
                       isLoading: bool, isAuthenticated: bool,
                       restoreRan: Option<(bool, bool, bool, bool)>, clearRan: Option<bool>)

  /** `attempted` is the mark in session storage. */
  datatype Tab = Tab(attempted: bool, page: Page, log: seq<Mark>)

  datatype Event =
    | Load(onCallback: bool, isLoading: bool, isAuthenticated: bool, strict: bool)   // strict runs effects twice
    | AuthChanged(isLoading: bool, isAuthenticated: bool)
    | Navigated(onCallback: bool)
    | RedirectFailed
    | ClickSignIn
    | ClickSignOut

  // ---------- The component's steps ----------

  /** The first effect: at most one silent redirect. Where the mark cannot be written the redirect is still
      asked for, and fails. */
  function Restore(c: Storage, t: Tab): Tab {
    var p := t.page;
    if p.started || p.wasSignedIn || p.isLoading || p.isAuthenticated || p.onCallback then t
    else if !c.canRead || t.attempted || !c.canWrite then t.(page := p.(started := true, restoring := false))
    else t.(attempted := true, page := p.(started := true), log := t.log + [SilentRedirect])
  }

  /** The second effect: a real sign-in makes the next page eligible for a restore again. */
  function ClearMark(c: Storage, t: Tab): Tab {
    if t.page.isAuthenticated && c.canRemove then t.(attempted := false) else t
  }

  function RestoreDeps(p: Page): (bool, bool, bool, bool) {
    (p.isLoading, p.isAuthenticated, p.wasSignedIn, p.onCallback)
  }

  /** No dependency of the first effect holds it back. */
  predicate MayRestore(d: (bool, bool, bool, bool)) {
    !d.0 && !d.1 && !d.2 && !d.3
  }

  /** After a render, each effect runs when what it depends on has changed. */
  function Effects(c: Storage, t: Tab): Tab {
    var d := RestoreDeps(t.page);
    var t1 := if t.page.restoreRan == Some(d) then t else Restore(c, t.(page := t.page.(restoreRan := Some(d))));
    var a := t1.page.isAuthenticated;
    if t1.page.clearRan == Some(a) then t1 else ClearMark(c, t1.(page := t1.page.(clearRan := Some(a))))
  }

  /** Being signed in is remembered while rendering, before any effect. */
  function Render(c: Storage, t: Tab): Tab {
    Effects(c, t.(page := t.page.(wasSignedIn := t.page.wasSignedIn || t.page.isAuthenticated)))
  }

  function NewPage(onCallback: bool, isLoading: bool, isAuthenticated: bool): Page {
    Page(false, true, false, onCallback, isLoading, isAuthenticated, None, None)
  }

  function MarkSignIn(before: bool, after: bool): seq<Mark> {
    if after && !before then [SignedIn] else []
  }

  function Apply(c: Storage, t: Tab, e: Event): Tab {
    match e
    case Load(onCallback, isLoading, isAuthenticated, strict) =>
      var landing := t.(page := NewPage(onCallback, isLoading, isAuthenticated),
                      log := t.log + [Loaded] + MarkSignIn(false, isAuthenticated));
      var once := Render(c, landing);
      if strict then Effects(c, once.(page := once.page.(restoreRan := None, clearRan := None))) else once
    case AuthChanged(isLoading, isAuthenticated) =>
      Render(c, t.(page := t.page.(isLoading := isLoading, isAuthenticated := isAuthenticated),
                   log := t.log + MarkSignIn(t.page.isAuthenticated, isAuthenticated)))
    case Navigated(onCallback) => Render(c, t.(page := t.page.(onCallback := onCallback)))
    case RedirectFailed => t.(page := t.page.(restoring := false))
    case ClickSignIn => t
    case ClickSignOut => t.(attempted := t.attempted || c.canWrite, log := t.log + [SignOut])
  }

  // ---------- The component ----------

  class Adapter {
    const storage: Storage
    var attempted: bool
    var started: bool
    var restoring: bool
    var wasSignedIn: bool
    var onCallback: bool
    var isLoading: bool
    var isAuthenticated: bool
    var restoreRan: Option<(bool, bool, bool, bool)>
    var clearRan: Option<bool>
    var log: seq<Mark>

    constructor (storage: Storage, t: Tab)
      ensures Now() == t && this.storage == storage
    {
      this.storage := storage;
      attempted, log := t.attempted, t.log;
      started, restoring, wasSignedIn := t.page.started, t.page.restoring, t.page.wasSignedIn;
      onCallback, isLoading, isAuthenticated := t.page.onCallback, t.page.isLoading, t.page.isAuthenticated;
      restoreRan, clearRan := t.page.restoreRan, t.page.clearRan;
    }

    function Now(): Tab
      reads this
    {
      Tab(attempted,
          Page(started, restoring, wasSignedIn, onCallback, isLoading, isAuthenticated, restoreRan, clearRan),
          log)
    }

    method RunRestore()
      modifies this
      ensures Now() == Restore(storage, old(Now()))
    {
      if started || wasSignedIn || isLoading || isAuthenticated || onCallback {
        return;
      }
      started := true;
      var tried := true;
      if storage.canRead {
        tried := attempted;
        if !tried && storage.canWrite {
          attempted := true;
        }
      }
      if tried {
        restoring := false;
        return;
      }
      SigninRedirect();
    }

    /** The redirect, which saves its state before it leaves the page; without that it is refused. */
    method SigninRedirect()
      modifies this
      ensures Now() == if storage.canWrite then old(Now()).(log := old(log) + [SilentRedirect])
                       else old(Now()).(page := old(Now()).page.(restoring := false))
    {
      if !storage.canWrite {
        restoring := false;
        return;
      }
      log := log + [SilentRedirect];
    }

    method RunClearMark()
      modifies this
      ensures Now() == ClearMark(storage, old(Now()))
    {
      if isAuthenticated && storage.canRemove {
        attempted := false;
      }
    }

    method RunEffects()
      modifies this
      ensures Now() == Effects(storage, old(Now()))
    {
      var d := (isLoading, isAuthenticated, wasSignedIn, onCallback);
      if restoreRan != Some(d) {
        restoreRan := Some(d);
        RunRestore();
      }
      if clearRan != Some(isAuthenticated) {
        clearRan := Some(isAuthenticated);
        RunClearMark();
      }
    }

    method DoRender()
      modifies this
      ensures Now() == Render(storage, old(Now()))
    {
      if isAuthenticated && !wasSignedIn {
        wasSignedIn := true;
      }
      RunEffects();
    }

    method OnLoad(callback: bool, loading: bool, authenticated: bool, strict: bool)
      modifies this
      ensures Now() == Apply(storage, old(Now()), Load(callback, loading, authenticated, strict))
    {
      hide Effects, Render, MarkSignIn;
      started, restoring, wasSignedIn, restoreRan, clearRan := false, true, false, None, None;
      onCallback, isLoading, isAuthenticated := callback, loading, authenticated;
      log := log + [Loaded] + MarkSignIn(false, authenticated);
      DoRender();
      if strict {
        restoreRan, clearRan := None, None;
        RunEffects();
      }
    }

    method OnAuthChanged(loading: bool, authenticated: bool)
      modifies this
      ensures Now() == Apply(storage, old(Now()), AuthChanged(loading, authenticated))
    {
      hide Effects, Render, MarkSignIn;
      log := log + MarkSignIn(isAuthenticated, authenticated);
      isLoading, isAuthenticated := loading, authenticated;
      DoRender();
    }

    method OnNavigated(callback: bool)
      modifies this
      ensures Now() == Apply(storage, old(Now()), Navigated(callback))
    {
      onCallback := callback;
      DoRender();
    }

    method OnRedirectFailed()
      modifies this
      ensures Now() == Apply(storage, old(Now()), RedirectFailed)
    {
      restoring := false;
    }

    /** `signOut`: marks the tab first, then leaves for the identity provider. */
    method OnClickSignOut()
      modifies this
      ensures Now() == Apply(storage, old(Now()), ClickSignOut)
    {
      if storage.canWrite {
        attempted := true;
      }
      log := log + [SignOut];
    }
  }

  // ---------- Every run of a tab ----------

  /** A tab before its first page; a duplicated tab may start with the mark. */
  function NewTab(attempted: bool): Tab {
    Tab(attempted, NewPage(true, true, false).(started := true, restoring := false), [])
  }

  function After(c: Storage, t: Tab, events: seq<Event>): Tab
    decreases |events|
  {
    if events == [] then t else After(c, Apply(c, t, events[0]), events[1..])
  }

  /** Between a silent redirect or a sign-out and the next silent redirect there is a sign-in. */
  ghost predicate Separated(log: seq<Mark>) {
    forall i, j :: 0 <= i < j < |log| && log[i] in {SilentRedirect, SignOut} && log[j] == SilentRedirect ==>
                     exists k :: i < k < j && log[k] == SignedIn
  }

  /** After a silent redirect or a sign-in, the next silent redirect is on another page. */
  ghost predicate OncePerPage(log: seq<Mark>) {
    forall i, j :: 0 <= i < j < |log| && log[i] in {SilentRedirect, SignedIn} && log[j] == SilentRedirect ==>
                     exists k :: i < k < j && log[k] == Loaded
  }

  /** A silent redirect or sign-out is the latest mark, page loads aside. */
  ghost predicate Closed(log: seq<Mark>) {
    exists i :: 0 <= i < |log| && log[i] in {SilentRedirect, SignOut} && forall k :: i < k < |log| ==> log[k] != SignedIn
  }

  /** The current page has had a silent redirect or a sign-in. */
  ghost predicate Used(log: seq<Mark>) {
    exists i :: 0 <= i < |log| && log[i] in {SilentRedirect, SignedIn} && forall k :: i < k < |log| ==> log[k] != Loaded
  }

  /** The current page has made a silent redirect. */
  ghost predicate RedirectedHere(log: seq<Mark>) {
    exists i :: 0 <= i < |log| && log[i] == SilentRedirect && forall k :: i < k < |log| ==> log[k] != Loaded
  }

  ghost predicate Invariant(c: Storage, t: Tab) {
    && OncePerPage(t.log)
    && (t.page.started && t.page.restoring ==> RedirectedHere(t.log))
    && (t.page.restoreRan.Some? && MayRestore(t.page.restoreRan.value) ==> t.page.started)
    && (MayRestore(RestoreDeps(t.page)) ==> t.page.started)
    && (Used(t.log) ==> t.page.started || t.page.wasSignedIn)
    && (t.page.isAuthenticated ==> t.page.wasSignedIn && t.page.clearRan == Some(true))
    && (t.page.clearRan == Some(true) ==> t.page.isAuthenticated)
    && (!c.canRead || !c.canWrite ==> SilentRedirect !in t.log)
    && (c.canRead && c.canWrite ==> Separated(t.log) && (Closed(t.log) ==> t.attempted))
  }

  lemma AppendSeparated(log: seq<Mark>, m: Mark)
    requires Separated(log) && (m == SilentRedirect ==> !Closed(log))
    ensures Separated(log + [m])
  {
    hide Closed;
    var more := log + [m];
    forall i, j | 0 <= i < j < |more| && more[i] in {SilentRedirect, SignOut} && more[j] == SilentRedirect
      ensures exists k :: i < k < j && more[k] == SignedIn
    {
      assert more[i] == log[i];
      var k := if j < |log| then SignInBetween(log, i, j) else SignInAfter(log, i);
      assert more[k] == SignedIn;
    }
  }

  ghost function SignInBetween(log: seq<Mark>, i: nat, j: nat): (k: nat)
    requires Separated(log) && i < j < |log| && log[i] in {SilentRedirect, SignOut} && log[j] == SilentRedirect
    ensures i < k < j && log[k] == SignedIn
  {
    var k :| i < k < j && log[k] == SignedIn;
    k
  }

  ghost function SignInAfter(log: seq<Mark>, i: nat): (k: nat)
    requires !Closed(log) && i < |log| && log[i] in {SilentRedirect, SignOut}
    ensures i < k < |log| && log[k] == SignedIn
  {
    var k :| i < k < |log| && log[k] == SignedIn;
    k
  }

  lemma AppendOncePerPage(log: seq<Mark>, m: Mark)
    requires OncePerPage(log) && (m == SilentRedirect ==> !Used(log))
    ensures OncePerPage(log + [m])
  {
    hide Used;
    var more := log + [m];
    forall i, j | 0 <= i < j < |more| && more[i] in {SilentRedirect, SignedIn} && more[j] == SilentRedirect
      ensures exists k :: i < k < j && more[k] == Loaded
    {
      assert more[i] == log[i];
      var k := if j < |log| then LoadBetween(log, i, j) else LoadAfter(log, i);
      assert more[k] == Loaded;
    }
  }

  ghost function LoadBetween(log: seq<Mark>, i: nat, j: nat): (k: nat)
    requires OncePerPage(log) && i < j < |log| && log[i] in {SilentRedirect, SignedIn} && log[j] == SilentRedirect
    ensures i < k < j && log[k] == Loaded
  {
    var k :| i < k < j && log[k] == Loaded;
    k
  }

  ghost function LoadAfter(log: seq<Mark>, i: nat): (k: nat)
    requires !Used(log) && i < |log| && log[i] in {SilentRedirect, SignedIn}
    ensures i < k < |log| && log[k] == Loaded
  {
    var k :| i < k < |log| && log[k] == Loaded;
    k
  }

  lemma AppendClosed(log: seq<Mark>, m: Mark)
    ensures Closed(log + [m]) <==> m in {SilentRedirect, SignOut} || (m != SignedIn && Closed(log))
  {
    var more := log + [m];
    if m in {SilentRedirect, SignOut} {
      assert more[|log|] == m;
    } else if m != SignedIn && Closed(log) {
      var i :| 0 <= i < |log| && log[i] in {SilentRedirect, SignOut} && forall k :: i < k < |log| ==> log[k] != SignedIn;
      assert more[i] == log[i];
    }
    if Closed(more) {
      var i :| 0 <= i < |more| && more[i] in {SilentRedirect, SignOut} && forall k :: i < k < |more| ==> more[k] != SignedIn;
      if i < |log| {
        assert more[|log|] == m;
        assert forall k :: i < k < |log| ==> log[k] == more[k];
        assert log[i] == more[i];
      }
    }
  }

  lemma AppendUsed(log: seq<Mark>, m: Mark)
    ensures Used(log + [m]) <==> m in {SilentRedirect, SignedIn} || (m != Loaded && Used(log))
  {
    var more := log + [m];
    if m in {SilentRedirect, SignedIn} {
      assert more[|log|] == m;
    } else if m != Loaded && Used(log) {
      var i :| 0 <= i < |log| && log[i] in {SilentRedirect, SignedIn} && forall k :: i < k < |log| ==> log[k] != Loaded;
      assert more[i] == log[i];
    }
    if Used(more) {
      var i :| 0 <= i < |more| && more[i] in {SilentRedirect, SignedIn} && forall k :: i < k < |more| ==> more[k] != Loaded;
      if i < |log| {
        assert more[|log|] == m;
        assert forall k :: i < k < |log| ==> log[k] == more[k];
        assert log[i] == more[i];
      }
    }
  }

  lemma AppendRedirectedHere(log: seq<Mark>, m: Mark)
    ensures RedirectedHere(log + [m]) <==> m == SilentRedirect || (m != Loaded && RedirectedHere(log))
  {
    var more := log + [m];
    if m == SilentRedirect {
      assert more[|log|] == m;
    } else if m != Loaded && RedirectedHere(log) {
      var i :| 0 <= i < |log| && log[i] == SilentRedirect && forall k :: i < k < |log| ==> log[k] != Loaded;
      assert more[i] == log[i];
    }
    if RedirectedHere(more) {
      var i :| 0 <= i < |more| && more[i] == SilentRedirect && forall k :: i < k < |more| ==> more[k] != Loaded;
      if i < |log| {
        assert more[|log|] == m;
        assert forall k :: i < k < |log| ==> log[k] == more[k];
        assert log[i] == more[i];
      }
    }
  }

  lemma Append(log: seq<Mark>, m: Mark)
    ensures RedirectedHere(log + [m]) <==> m == SilentRedirect || (m != Loaded && RedirectedHere(log))
    ensures Closed(log + [m]) <==> m in {SilentRedirect, SignOut} || (m != SignedIn && Closed(log))
    ensures Used(log + [m]) <==> m in {SilentRedirect, SignedIn} || (m != Loaded && Used(log))
    ensures Separated(log) && (m == SilentRedirect ==> !Closed(log)) ==> Separated(log + [m])
    ensures OncePerPage(log) && (m == SilentRedirect ==> !Used(log)) ==> OncePerPage(log + [m])
  {
    hide Separated, OncePerPage, Closed, Used, RedirectedHere;
    AppendRedirectedHere(log, m);
    AppendClosed(log, m);
    AppendUsed(log, m);
    if Separated(log) && (m == SilentRedirect ==> !Closed(log)) {
      AppendSeparated(log, m);
    }
    if OncePerPage(log) && (m == SilentRedirect ==> !Used(log)) {
      AppendOncePerPage(log, m);
    }
  }

  /** A tab in which the effects may run: a mark is only cleared right after a sign-in. */
  ghost predicate BeforeEffects(c: Storage, t: Tab) {
    && OncePerPage(t.log)
    && (t.page.started && t.page.restoring ==> RedirectedHere(t.log))
    && (t.page.restoreRan.Some? && MayRestore(t.page.restoreRan.value) ==> t.page.started)
    && (Used(t.log) ==> t.page.started || t.page.wasSignedIn)
    && (t.page.isAuthenticated ==> t.page.wasSignedIn && (t.page.clearRan == Some(true) || !Closed(t.log)))
    && (!c.canRead || !c.canWrite ==> SilentRedirect !in t.log)
    && (c.canRead && c.canWrite ==> Separated(t.log) && (Closed(t.log) ==> t.attempted))
  }

  lemma EffectsKeep(c: Storage, t: Tab)
    requires BeforeEffects(c, t)
    ensures Invariant(c, Effects(c, t))
    ensures Effects(c, t).page.isAuthenticated == t.page.isAuthenticated
    ensures t.page.isAuthenticated ==> Effects(c, t).log == t.log
    ensures Effects(c, t).page.wasSignedIn == t.page.wasSignedIn
  {
    hide Separated, OncePerPage, Closed, Used, RedirectedHere;
    Append(t.log, SilentRedirect);
  }

  /** A new mark and a changed page, before the render. */
  lemma SignInMark(log: seq<Mark>, before: bool, after: bool)
    requires OncePerPage(log)
    ensures var more := log + MarkSignIn(before, after);
            && OncePerPage(more)
            && (Separated(log) ==> Separated(more))
            && (Closed(more) <==> Closed(log) && (after ==> before))
            && (Used(more) <==> Used(log) || (after && !before))
            && (SilentRedirect in more <==> SilentRedirect in log)
            && (RedirectedHere(more) <==> RedirectedHere(log))
  {
    hide Separated, OncePerPage, Closed, Used, RedirectedHere;
    Append(log, SignedIn);
    assert log + [] == log;
  }

  lemma LoadKeeps(c: Storage, t: Tab, e: Event)
    requires Invariant(c, t) && e.Load?
    ensures Invariant(c, Apply(c, t, e))
  {
    hide Separated, OncePerPage, Closed, Used, RedirectedHere, Effects, MarkSignIn;
    var log := t.log + [Loaded];
    Append(t.log, Loaded);
    SignInMark(log, false, e.isAuthenticated);
    var landing := t.(page := NewPage(e.onCallback, e.isLoading, e.isAuthenticated),
                    log := log + MarkSignIn(false, e.isAuthenticated));
    var ready := landing.(page := landing.page.(wasSignedIn := landing.page.wasSignedIn || landing.page.isAuthenticated));
    EffectsKeep(c, ready);
    var once := Effects(c, ready);
    assert Render(c, landing) == once;
    if e.strict {
      EffectsKeep(c, once.(page := once.page.(restoreRan := None, clearRan := None)));
    }
  }

  lemma AuthChangedKeeps(c: Storage, t: Tab, e: Event)
    requires Invariant(c, t) && e.AuthChanged?
    ensures Invariant(c, Apply(c, t, e))
  {
    hide Separated, OncePerPage, Closed, Used, RedirectedHere, Effects, MarkSignIn;
    SignInMark(t.log, t.page.isAuthenticated, e.isAuthenticated);
    var changed := t.(page := t.page.(isLoading := e.isLoading, isAuthenticated := e.isAuthenticated),
                      log := t.log + MarkSignIn(t.page.isAuthenticated, e.isAuthenticated));
    EffectsKeep(c, changed.(page := changed.page.(wasSignedIn := changed.page.wasSignedIn || changed.page.isAuthenticated)));
  }

  lemma StepKeeps(c: Storage, t: Tab, e: Event)
    requires Invariant(c, t)
    ensures Invariant(c, Apply(c, t, e))
  {
    hide Separated, OncePerPage, Closed, Used, RedirectedHere, Effects;
    match e
    case Load(_, _, _, _) => LoadKeeps(c, t, e);
    case AuthChanged(_, _) => AuthChangedKeeps(c, t, e);
    case Navigated(onCallback) =>
      var moved := t.(page := t.page.(onCallback := onCallback));
      EffectsKeep(c, moved.(page := moved.page.(wasSignedIn := moved.page.wasSignedIn || moved.page.isAuthenticated)));
    case RedirectFailed =>
    case ClickSignIn =>
    case ClickSignOut => Append(t.log, SignOut);
  }

  lemma {:induction false} RunKeeps(c: Storage, t: Tab, events: seq<Event>)
    requires Invariant(c, t)
    ensures Invariant(c, After(c, t, events))
    decreases |events|
  {
    hide Invariant, Apply;
    if events != [] {
      StepKeeps(c, t, events[0]);
      RunKeeps(c, Apply(c, t, events[0]), events[1..]);
    }
  }

  /** Whatever storage allows: a page makes at most one silent redirect, and none once it was signed in. */
  lemma OnePerPage(c: Storage, attempted: bool, events: seq<Event>)
    ensures OncePerPage(After(c, NewTab(attempted), events).log)
  {
    RunKeeps(c, NewTab(attempted), events);
  }

  datatype Status = ShowsSignedIn | ShowsLoading | ShowsSignedOut

  /** What the session shows. */
  function StatusOf(p: Page): Status {
    if p.isAuthenticated then ShowsSignedIn
    else if p.isLoading || (p.restoring && !p.onCallback && !p.wasSignedIn) then ShowsLoading
    else ShowsSignedOut
  }

  /** A page is never stuck loading: it shows so only while the provider is loading or after this page's own
      silent redirect, which leaves the page or fails. */
  lemma LoadingEnds(c: Storage, attempted: bool, events: seq<Event>)
    ensures var t := After(c, NewTab(attempted), events);
            StatusOf(t.page) == ShowsLoading ==> t.page.isLoading || RedirectedHere(t.log)
  {
    RunKeeps(c, NewTab(attempted), events);
  }

  /** Whatever storage allows: in every run of a tab a silent redirect follows an earlier one, or a sign-out,
      only after a sign-in. */
  lemma NeverLoops(c: Storage, attempted: bool, events: seq<Event>)
    ensures Separated(After(c, NewTab(attempted), events).log)
  {
    RunKeeps(c, NewTab(attempted), events);
    NoRedirectIsSeparated(After(c, NewTab(attempted), events).log);
  }

  lemma NoRedirectIsSeparated(log: seq<Mark>)
    ensures SilentRedirect !in log ==> Separated(log)
  {
  }

  ghost predicate EverRedirects(c: Storage) {
    exists attempted: bool, events: seq<Event> :: SilentRedirect in After(c, NewTab(attempted), events).log
  }

  /** A store that refuses reads or refuses writes is never redirected at all. */
  lemma RedirectsIffReadAndWritten(c: Storage)
    ensures EverRedirects(c) <==> c.canRead && c.canWrite
  {
    if c.canRead && c.canWrite {
      var load := Load(false, false, false, false);
      assert Apply(c, NewTab(false), load).log == [Loaded, SilentRedirect];
      AfterOne(c, NewTab(false), load);
      assert SilentRedirect in After(c, NewTab(false), [load]).log;
    } else if EverRedirects(c) {
      var attempted: bool, events: seq<Event> :| SilentRedirect in After(c, NewTab(attempted), events).log;
      RunKeeps(c, NewTab(attempted), events);
      assert false;
    }
  }

  lemma AfterOne(c: Storage, t: Tab, e: Event)
    ensures After(c, t, [e]) == Apply(c, t, e)
  {
    hide Apply;
    assert [e][1..] == [];
  }

  // ---------- Every event, spelled out ----------

  /** A page load redirects exactly when it is not the callback, the provider is done and has no session, and the
      tab's storage works and holds no mark. The mark is then set; a session takes it away. */
  lemma LoadSpelled(c: Storage, t: Tab, onCallback: bool, isLoading: bool, isAuthenticated: bool, strict: bool)
    ensures var u := Apply(c, t, Load(onCallback, isLoading, isAuthenticated, strict));
            var redirects := !onCallback && !isLoading && !isAuthenticated && c.canRead && c.canWrite && !t.attempted;
            && u.log == t.log + [Loaded] + (if isAuthenticated then [SignedIn] else []) + (if redirects then [SilentRedirect] else [])
            && (u.attempted <==> redirects || (t.attempted && !(isAuthenticated && c.canRemove)))
  {
  }

  lemma EffectsSpelled(c: Storage, t: Tab)
    ensures var u := Effects(c, t);
            var p := t.page;
            var redirects := && p.restoreRan != Some(RestoreDeps(p)) && MayRestore(RestoreDeps(p)) && !p.started
                             && c.canRead && c.canWrite && !t.attempted;
            && u.page.isLoading == p.isLoading && u.page.isAuthenticated == p.isAuthenticated
            && u.log == t.log + (if redirects then [SilentRedirect] else [])
            && (u.attempted <==>
                  redirects || (t.attempted && !(p.isAuthenticated && p.clearRan != Some(p.isAuthenticated) && c.canRemove)))
  {
  }

  /** Later on the same page: a change of the session or of the place redirects under the same conditions, if the
      page has neither tried before nor been signed in. */
  lemma ChangeSpelled(c: Storage, t: Tab, e: Event)
    requires Invariant(c, t) && (e.AuthChanged? || e.Navigated?)
    ensures var u := Apply(c, t, e);
            var isAuthenticated := if e.AuthChanged? then e.isAuthenticated else t.page.isAuthenticated;
            var isLoading := if e.AuthChanged? then e.isLoading else t.page.isLoading;
            var onCallback := if e.Navigated? then e.onCallback else t.page.onCallback;
            var signsIn := isAuthenticated && !t.page.isAuthenticated;
            var redirects := && !onCallback && !isLoading && !isAuthenticated && !t.page.wasSignedIn && !t.page.started
                             && c.canRead && c.canWrite && !t.attempted;
            && u.log == t.log + (if signsIn then [SignedIn] else []) + (if redirects then [SilentRedirect] else [])
            && (u.attempted <==> redirects || (t.attempted && !(signsIn && c.canRemove)))
  {
    hide OncePerPage, Separated, Closed, Used, RedirectedHere, Effects;
    EffectsSpelled(c, BeforeRender(t, e));
  }

  /** The tab when the effects run after a change of the session or of the place. */
  function BeforeRender(t: Tab, e: Event): Tab
    requires e.AuthChanged? || e.Navigated?
  {
    var u := if e.Navigated? then t.(page := t.page.(onCallback := e.onCallback))
             else t.(page := t.page.(isLoading := e.isLoading, isAuthenticated := e.isAuthenticated),
                     log := t.log + MarkSignIn(t.page.isAuthenticated, e.isAuthenticated));
    u.(page := u.page.(wasSignedIn := u.page.wasSignedIn || u.page.isAuthenticated))
  }

  /** Clicks and a failed redirect. */
  lemma OthersSpelled(c: Storage, t: Tab)
    ensures Apply(c, t, RedirectFailed) == t.(page := t.page.(restoring := false))
    ensures Apply(c, t, ClickSignIn) == t
    ensures Apply(c, t, ClickSignOut) == t.(attempted := t.attempted || c.canWrite, log := t.log + [SignOut])
  {
  }

  /** What the latest page load or change of the session said: whether it was still loading, and the session. */
  function Reported(events: seq<Event>): (bool, bool) {
    if events == [] then (true, false)
    else match events[|events| - 1]
      case Load(_, isLoading, isAuthenticated, _) => (isLoading, isAuthenticated)
      case AuthChanged(isLoading, isAuthenticated) => (isLoading, isAuthenticated)
      case _ => Reported(events[..|events| - 1])
  }

  /** A page shows signed in exactly while the latest report has a session. Without one it shows loading while
      the report says so or, at most, after its own silent redirect, and else signed out. */
  lemma StatusTold(c: Storage, attempted: bool, events: seq<Event>)
    ensures var t, told := After(c, NewTab(attempted), events), Reported(events);
            && (StatusOf(t.page) == ShowsSignedIn <==> told.1)
            && (!told.1 && told.0 ==> StatusOf(t.page) == ShowsLoading)
            && (!told.1 && !told.0 && !RedirectedHere(t.log) ==> StatusOf(t.page) == ShowsSignedOut)
  {
    hide Invariant;
    PageReported(c, attempted, events);
    LoadingEnds(c, attempted, events);
  }

  /** A page that finds no session shows loading while its silent redirect is on its way, and signed out when that
      fails or is not made. */
  lemma StatusAfterLoad(c: Storage, t: Tab, strict: bool)
    ensures var u := Apply(c, t, Load(false, false, false, strict));
            && StatusOf(u.page) == (if c.canRead && c.canWrite && !t.attempted then ShowsLoading else ShowsSignedOut)
            && StatusOf(Apply(c, u, RedirectFailed).page) == ShowsSignedOut
  {
  }

  /** A page that was signed in shows signed out as soon as the session is gone. */
  lemma StatusAfterLoss(c: Storage, t: Tab)
    requires Invariant(c, t) && t.page.isAuthenticated
    ensures StatusOf(Apply(c, t, AuthChanged(false, false)).page) == ShowsSignedOut
  {
    hide OncePerPage, Separated, Closed, Used, RedirectedHere;
  }

  lemma StepReported(c: Storage, t: Tab, e: Event)
    ensures var p := Apply(c, t, e).page;
            && p.isLoading == (if e.Load? || e.AuthChanged? then e.isLoading else t.page.isLoading)
            && p.isAuthenticated == (if e.Load? || e.AuthChanged? then e.isAuthenticated else t.page.isAuthenticated)
  {
    hide Effects, MarkSignIn;
    match e
    case Load(onCallback, isLoading, isAuthenticated, strict) =>
      var landing := t.(page := NewPage(onCallback, isLoading, isAuthenticated),
                      log := t.log + [Loaded] + MarkSignIn(false, isAuthenticated));
      var ready := landing.(page := landing.page.(wasSignedIn := isAuthenticated));
      EffectsSpelled(c, ready);
      var once := Effects(c, ready);
      EffectsSpelled(c, once.(page := once.page.(restoreRan := None, clearRan := None)));
    case AuthChanged(_, _) => EffectsSpelled(c, BeforeRender(t, e));
    case Navigated(_) => EffectsSpelled(c, BeforeRender(t, e));
    case _ =>
  }

  lemma {:induction false} PageReported(c: Storage, attempted: bool, events: seq<Event>)
    ensures var t := After(c, NewTab(attempted), events);
            t.page.isLoading == Reported(events).0 && t.page.isAuthenticated == Reported(events).1
    decreases |events|
  {
    hide Apply;
    if events != [] {
      var front, e := events[..|events| - 1], events[|events| - 1];
      assert events == front + [e];
      PageReported(c, attempted, front);
      AfterMore(c, NewTab(attempted), front, e);
      StepReported(c, After(c, NewTab(attempted), front), e);
    }
  }

  lemma {:induction false} AfterMore(c: Storage, t: Tab, events: seq<Event>, e: Event)
    ensures After(c, t, events + [e]) == Apply(c, After(c, t, events), e)
    decreases |events|
  {
    hide Apply;
    if events == [] {
      AfterOne(c, t, e);
      assert events + [e] == [e];
    } else {
      assert (events + [e])[1..] == events[1..] + [e];
      AfterMore(c, Apply(c, t, events[0]), events[1..], e);
    }
  }

  // ---------- How many redirects ----------

  function Count(log: seq<Mark>, m: Mark): nat {
    if log == [] then 0 else Count(log[..|log| - 1], m) + if log[|log| - 1] == m then 1 else 0
  }

  lemma CountAppend(log: seq<Mark>, last: Mark, m: Mark)
    ensures Count(log + [last], m) == Count(log, m) + if last == m then 1 else 0
  {
    assert (log + [last])[..|log|] == log;
  }

  /** Redirects with sign-ins in between are at most one more than the sign-ins. */
  lemma {:induction false} SeparatedCount(log: seq<Mark>)
    requires Separated(log)
    ensures Count(log, SilentRedirect) <= Count(log, SignedIn) + if Closed(log) then 1 else 0
    decreases |log|
  {
    if log != [] {
      var front, m := log[..|log| - 1], log[|log| - 1];
      assert log == front + [m];
      SeparatedFront(front, m);
      SeparatedCount(front);
      AppendClosed(front, m);
    }
  }

  lemma SeparatedFront(front: seq<Mark>, m: Mark)
    requires Separated(front + [m])
    ensures Separated(front)
    ensures m == SilentRedirect ==> !Closed(front)
  {
    var log := front + [m];
    forall i, j | 0 <= i < j < |front| && front[i] in {SilentRedirect, SignOut} && front[j] == SilentRedirect
      ensures exists k :: i < k < j && front[k] == SignedIn
    {
      assert log[i] == front[i] && log[j] == front[j];
      var k :| i < k < j && log[k] == SignedIn;
      assert front[k] == SignedIn;
    }
    if m == SilentRedirect {
      forall i | 0 <= i < |front| && front[i] in {SilentRedirect, SignOut}
        ensures exists k :: i < k < |front| && front[k] == SignedIn
      {
        assert log[i] == front[i] && log[|front|] == m;
        var k :| i < k < |front| && log[k] == SignedIn;
        assert front[k] == SignedIn;
      }
    }
  }

  /** The event reports a session. */
  predicate ReportsSession(e: Event) {
    (e.Load? || e.AuthChanged?) && e.isAuthenticated
  }

  function Sessions(events: seq<Event>): nat {
    if events == [] then 0 else (if ReportsSession(events[0]) then 1 else 0) + Sessions(events[1..])
  }

  lemma EffectsCount(c: Storage, t: Tab)
    ensures Count(Effects(c, t).log, SignedIn) == Count(t.log, SignedIn)
    ensures Count(t.log, SilentRedirect) <= Count(Effects(c, t).log, SilentRedirect)
  {
    CountAppend(t.log, SilentRedirect, SignedIn);
    CountAppend(t.log, SilentRedirect, SilentRedirect);
  }

  lemma SignInCount(log: seq<Mark>, before: bool, after: bool)
    ensures Count(log + MarkSignIn(before, after), SignedIn) == Count(log, SignedIn) + if after && !before then 1 else 0
    ensures Count(log + MarkSignIn(before, after), SilentRedirect) == Count(log, SilentRedirect)
  {
    CountAppend(log, SignedIn, SignedIn);
    CountAppend(log, SignedIn, SilentRedirect);
    assert log + [] == log;
  }

  lemma StepSignIns(c: Storage, t: Tab, e: Event)
    ensures Count(Apply(c, t, e).log, SignedIn) <= Count(t.log, SignedIn) + if ReportsSession(e) then 1 else 0
  {
    hide Effects, Count, MarkSignIn;
    match e
    case Load(onCallback, isLoading, isAuthenticated, strict) =>
      var log := t.log + [Loaded];
      CountAppend(t.log, Loaded, SignedIn);
      SignInCount(log, false, isAuthenticated);
      var landing := t.(page := NewPage(onCallback, isLoading, isAuthenticated), log := log + MarkSignIn(false, isAuthenticated));
      var ready := landing.(page := landing.page.(wasSignedIn := landing.page.wasSignedIn || landing.page.isAuthenticated));
      EffectsCount(c, ready);
      var once := Effects(c, ready);
      EffectsCount(c, once.(page := once.page.(restoreRan := None, clearRan := None)));
    case AuthChanged(isLoading, isAuthenticated) =>
      SignInCount(t.log, t.page.isAuthenticated, isAuthenticated);
      var changed := t.(page := t.page.(isLoading := isLoading, isAuthenticated := isAuthenticated),
                        log := t.log + MarkSignIn(t.page.isAuthenticated, isAuthenticated));
      EffectsCount(c, changed.(page := changed.page.(wasSignedIn := changed.page.wasSignedIn || changed.page.isAuthenticated)));
    case Navigated(onCallback) =>
      var moved := t.(page := t.page.(onCallback := onCallback));
      EffectsCount(c, moved.(page := moved.page.(wasSignedIn := moved.page.wasSignedIn || moved.page.isAuthenticated)));
    case RedirectFailed =>
    case ClickSignIn =>
    case ClickSignOut => CountAppend(t.log, SignOut, SignedIn);
  }

  lemma {:induction false} RunSignIns(c: Storage, t: Tab, events: seq<Event>)
    ensures Count(After(c, t, events).log, SignedIn) <= Count(t.log, SignedIn) + Sessions(events)
    decreases |events|
  {
    hide Apply, Count, ReportsSession;
    if events != [] {
      StepSignIns(c, t, events[0]);
      RunSignIns(c, Apply(c, t, events[0]), events[1..]);
    }
  }

  /** A run makes at most one silent redirect more than it has sign-ins, so at most one when no event reports
      a session. */
  lemma RedirectsBounded(c: Storage, attempted: bool, events: seq<Event>)
    ensures var log := After(c, NewTab(attempted), events).log;
            && Count(log, SilentRedirect) <= Count(log, SignedIn) + 1
            && Count(log, SilentRedirect) <= Sessions(events) + 1
  {
    hide After, Closed, Separated;
    NeverLoops(c, attempted, events);
    SeparatedCount(After(c, NewTab(attempted), events).log);
    RunSignIns(c, NewTab(attempted), events);
  }

  /** "At most once per tab", as documented. */
  ghost predicate AtMostOncePerTab(c: Storage) {
    forall attempted: bool, events: seq<Event> :: Count(After(c, NewTab(attempted), events).log, SilentRedirect) <= 1
  }

  /** Storage in which the mark can be found, set and taken away. */
  predicate Works(c: Storage) {
    c.canRead && c.canWrite && c.canRemove
  }

  /** While the mark is never taken away, it is set by the first redirect. */
  ghost predicate MarkedOnce(c: Storage, t: Tab) {
    Count(t.log, SilentRedirect) <= if c.canRead && c.canWrite && t.attempted then 1 else 0
  }

  lemma StepMarkedOnce(c: Storage, t: Tab, e: Event)
    requires !Works(c) && MarkedOnce(c, t)
    ensures MarkedOnce(c, Apply(c, t, e))
  {
    hide Count, MarkSignIn, Effects;
    match e
    case Load(onCallback, isLoading, isAuthenticated, strict) =>
      var log := t.log + [Loaded];
      CountAppend(t.log, Loaded, SilentRedirect);
      SignInCount(log, false, isAuthenticated);
      var landing := t.(page := NewPage(onCallback, isLoading, isAuthenticated), log := log + MarkSignIn(false, isAuthenticated));
      var ready := landing.(page := landing.page.(wasSignedIn := landing.page.wasSignedIn || landing.page.isAuthenticated));
      EffectsMarkedOnce(c, ready);
      var once := Effects(c, ready);
      EffectsMarkedOnce(c, once.(page := once.page.(restoreRan := None, clearRan := None)));
    case AuthChanged(isLoading, isAuthenticated) =>
      SignInCount(t.log, t.page.isAuthenticated, isAuthenticated);
      var changed := t.(page := t.page.(isLoading := isLoading, isAuthenticated := isAuthenticated),
                        log := t.log + MarkSignIn(t.page.isAuthenticated, isAuthenticated));
      EffectsMarkedOnce(c, changed.(page := changed.page.(wasSignedIn := changed.page.wasSignedIn || changed.page.isAuthenticated)));
    case Navigated(onCallback) =>
      var moved := t.(page := t.page.(onCallback := onCallback));
      EffectsMarkedOnce(c, moved.(page := moved.page.(wasSignedIn := moved.page.wasSignedIn || moved.page.isAuthenticated)));
    case RedirectFailed =>
    case ClickSignIn =>
    case ClickSignOut => CountAppend(t.log, SignOut, SilentRedirect);
  }

  lemma EffectsMarkedOnce(c: Storage, t: Tab)
    requires !Works(c) && MarkedOnce(c, t)
    ensures MarkedOnce(c, Effects(c, t))
  {
    hide Count;
    CountAppend(t.log, SilentRedirect, SilentRedirect);
  }

  lemma {:induction false} RunMarkedOnce(c: Storage, t: Tab, events: seq<Event>)
    requires !Works(c) && MarkedOnce(c, t)
    ensures Count(After(c, t, events).log, SilentRedirect) <= 1
    decreases |events|
  {
    hide Apply, Count;
    if events != [] {
      StepMarkedOnce(c, t, events[0]);
      RunMarkedOnce(c, Apply(c, t, events[0]), events[1..]);
    }
  }

  /** The documented bound holds exactly when storage refuses some access: where everything works, a sign-in
      makes the tab eligible again. */
  lemma OncePerTabIff(c: Storage)
    ensures AtMostOncePerTab(c) <==> !(c.canRead && c.canWrite && c.canRemove)
  {
    hide Count, After;
    if Works(c) {
      TwiceAroundASignIn(c);
    } else {
      forall attempted: bool, events: seq<Event>
        ensures Count(After(c, NewTab(attempted), events).log, SilentRedirect) <= 1
      {
        NoMarks();
        RunMarkedOnce(c, NewTab(attempted), events);
      }
    }
  }

  lemma NoMarks()
    ensures Count([], SilentRedirect) == 0
  {
  }

  lemma CountTwice(front: seq<Mark>, i: nat)
    requires i < |front| && front[i] == SilentRedirect
    ensures Count(front + [SilentRedirect], SilentRedirect) >= 2
  {
    CountAppend(front, SilentRedirect, SilentRedirect);
    CountPositive(front, i);
  }

  lemma {:induction false} CountPositive(log: seq<Mark>, i: nat)
    requires i < |log|
    ensures Count(log, log[i]) >= 1
    decreases |log|
  {
    if i < |log| - 1 {
      CountPositive(log[..|log| - 1], i);
    }
  }

  /** With storage that works: a page that finds no session, the return from the identity provider with one,
      and a later page that finds none. */
  lemma TwiceAroundASignIn(c: Storage)
    requires c.canRead && c.canWrite && c.canRemove
    ensures var run := [Load(false, false, false, false), Load(true, true, false, false), AuthChanged(false, true),
                        Load(false, false, false, false)];
            After(c, NewTab(false), run).log == [Loaded, SilentRedirect, Loaded, SignedIn, Loaded, SilentRedirect]
    ensures !AtMostOncePerTab(c)
  {
    hide Count;
    var load, back, found := Load(false, false, false, false), Load(true, true, false, false), AuthChanged(false, true);
    var run := [load, back, found, load];
    var t1 := Apply(c, NewTab(false), load);
    assert t1.log == [Loaded, SilentRedirect] && t1.attempted;
    var t2 := Apply(c, t1, back);
    assert t2.log == [Loaded, SilentRedirect, Loaded] && t2.attempted;
    var t3 := Apply(c, t2, found);
    assert t3.log == [Loaded, SilentRedirect, Loaded, SignedIn] && !t3.attempted;
    var t4 := Apply(c, t3, load);
    assert t4.log == [Loaded, SilentRedirect, Loaded, SignedIn, Loaded, SilentRedirect];
    AfterFour(c, NewTab(false), load, back, found, load);
    CountTwice([Loaded, SilentRedirect, Loaded, SignedIn, Loaded], 1);
    assert [Loaded, SilentRedirect, Loaded, SignedIn, Loaded] + [SilentRedirect] == t4.log;
  }

  lemma AfterFour(c: Storage, t: Tab, e1: Event, e2: Event, e3: Event, e4: Event)
    ensures After(c, t, [e1, e2, e3, e4]) == Apply(c, Apply(c, Apply(c, Apply(c, t, e1), e2), e3), e4)
  {
    hide Apply;
    var t2 := Apply(c, Apply(c, t, e1), e2);
    AfterTwo(c, t, e1, e2, [e3, e4]);
    AfterTwo(c, t2, e3, e4, []);
    assert [e1, e2, e3, e4] == [e1, e2] + [e3, e4];
    assert [e3, e4] == [e3, e4] + [];
  }

  lemma AfterTwo(c: Storage, t: Tab, e1: Event, e2: Event, more: seq<Event>)
    ensures After(c, t, [e1, e2] + more) == After(c, Apply(c, Apply(c, t, e1), e2), more)
  {
    hide Apply;
    var events := [e1, e2] + more;
    assert events[1..] == [e2] + more && ([e2] + more)[1..] == more;
    var t1 := Apply(c, t, e1);
    assert After(c, t1, [e2] + more) == After(c, Apply(c, t1, e2), more);
  }
}
