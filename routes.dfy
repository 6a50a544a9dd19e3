/** manager/routes.py: the decisions of the `delete`, `app_edit`,
    `register` and `dashboard` handlers. Replies of the identity provider
    are inputs; each handler returns the calls it issued. */
module Routes {
  import opened Basics
  import opened Text
  import opened Urls
  import opened Remote
  import opened Actions

  // ---- delete ----

  /** The accounts the manager refuses to delete: `akadmin` and the
      outpost service accounts. */
  predicate IsSystemUser(username: Option<string>) {
    username == Some("akadmin") || (Present(username) && StartsWith(username.value, "ak-outpost-"))
  }

  /** `delete`: a system account is refused and nothing is called;
      otherwise the account is deleted, and its mailbox too when a user name
      was supplied. */
  method Delete(pk: int, username: Option<string>) returns (refused: bool, calls: seq<Call>)
    ensures refused <==> IsSystemUser(username)
    ensures refused ==> calls == []
    ensures !refused ==> |calls| >= 1 && calls[0] == DeleteUser(pk)
    ensures !refused ==> (DeleteMailbox(username) in calls <==> Present(username))
    ensures forall c :: c in calls ==> c == DeleteUser(pk) || c == DeleteMailbox(username)
  {
    if username == Some("akadmin") || (Present(username) && StartsWith(username.value, "ak-outpost-")) {
      return true, [];
    }
    calls := [DeleteUser(pk)];
    if Present(username) {
      calls := calls + [DeleteMailbox(username)];
    }
    refused := false;
  }

  // ---- app_edit ----

  /** A policy binding of an application: its pk and the group it binds,
      if any. */
  datatype Binding = Binding(pk: string, group: Option<string>)

  /** The groups the bindings bind. */
  function Groups(bs: seq<Binding>): set<string> {
    set i | 0 <= i < |bs| && Present(bs[i].group) :: bs[i].group.value
  }

  /** Some binding binds group `g` under pk `pk`. */
  predicate Binds(bs: seq<Binding>, g: string, pk: string) {
    exists i :: 0 <= i < |bs| && bs[i] == Binding(pk, Some(g))
  }

  /** `{b['group']: b['pk'] for b in bindings if b['group']}`: for a group
      bound twice, the later binding wins. */
  function BindingMap(bs: seq<Binding>): map<string, string> {
    if bs == [] then map[]
    else
      var b := bs[|bs| - 1];
      var m := BindingMap(bs[..|bs| - 1]);
      if Present(b.group) then m[b.group.value := b.pk] else m
  }

  /** The map has a key for exactly the bound groups, and maps each to the
      pk of a binding of that group. */
  lemma {:induction false} BindingMapSound(bs: seq<Binding>)
    ensures BindingMap(bs).Keys == Groups(bs)
    ensures forall g :: g in BindingMap(bs) ==> Binds(bs, g, BindingMap(bs)[g])
  {
    if bs != [] {
      var front := bs[..|bs| - 1];
      var b := bs[|bs| - 1];
      BindingMapSound(front);
      assert forall i :: 0 <= i < |front| ==> front[i] == bs[i];
      assert Groups(bs) == Groups(front) + (if Present(b.group) then {b.group.value} else {}) by {
        forall x | x in Groups(bs) ensures x in Groups(front) + (if Present(b.group) then {b.group.value} else {}) {
          var i :| 0 <= i < |bs| && Present(bs[i].group) && bs[i].group.value == x;
          if i < |front| {
            assert front[i] == bs[i];
          }
        }
      }
      forall g | g in BindingMap(bs) ensures Binds(bs, g, BindingMap(bs)[g]) {
        if Present(b.group) && g == b.group.value {
          assert bs[|bs| - 1] == Binding(BindingMap(bs)[g], Some(g));
        } else {
          var i :| 0 <= i < |front| && front[i] == Binding(BindingMap(front)[g], Some(g));
          assert bs[i] == front[i];
        }
      }
    }
  }

  /** The reconciliation plan: the groups to bind and the groups to unbind.
      The two are disjoint, groups both bound and submitted are in neither,
      and applying the plan to the bound groups gives the submitted ones. */
  function Plan(existing: set<string>, submitted: set<string>): (p: (set<string>, set<string>))
    ensures p.0 !! p.1
    ensures p.0 !! existing && p.1 <= existing
    ensures forall g :: g in existing && g in submitted ==> g !in p.0 && g !in p.1
    ensures (existing - p.1) + p.0 == submitted
  {
    (submitted - existing, existing - submitted)
  }

  /** The deletions for the groups `gs`. */
  function DeleteCalls(m: map<string, string>, gs: set<string>): set<Call> {
    set g | g in gs && g in m :: DeletePolicyBinding(m[g])
  }

  /** The creations for the groups `gs` on application `pk`. */
  function CreateCalls(pk: string, gs: set<string>): set<Call> {
    set g | g in gs :: CreatePolicyBinding(pk, g)
  }

  /** No two bindings share a pk or bind the same group. */
  predicate Distinct(bs: seq<Binding>) {
    forall i, j :: 0 <= i < j < |bs| ==>
      bs[i].pk != bs[j].pk && (Present(bs[i].group) ==> bs[i].group != bs[j].group)
  }

  /** The groups still bound through bindings whose pk was not deleted. */
  function Kept(bs: seq<Binding>, calls: seq<Call>): set<string> {
    set i | 0 <= i < |bs| && Present(bs[i].group) && DeletePolicyBinding(bs[i].pk) !in calls :: bs[i].group.value
  }

  /** The groups bound to application `pk` by the calls. */
  function Created(calls: seq<Call>, pk: string): set<string> {
    set c | c in calls && c.CreatePolicyBinding? && c.bindingTarget == pk :: c.boundGroup
  }

  /** The groups application `pk` is bound to once the calls have run. */
  function BoundAfter(bs: seq<Binding>, calls: seq<Call>, pk: string): set<string> {
    Kept(bs, calls) + Created(calls, pk)
  }

  /** The shape of the reconciliation calls: first one deletion for each
      group to unbind, then one creation for each group to bind. */
  predicate Reconciles(calls: seq<Call>, m: map<string, string>, pk: string, add: set<string>, del: set<string>) {
    && |calls| == |del| + |add|
    && (forall i :: 0 <= i < |del| ==> calls[i] in DeleteCalls(m, del))
    && (forall g :: g in del && g in m ==> DeletePolicyBinding(m[g]) in calls)
    && (forall i :: |del| <= i < |calls| ==> calls[i] in CreateCalls(pk, add))
    && (forall g :: g in add ==> CreatePolicyBinding(pk, g) in calls)
  }

  /** With distinct bindings, the map names every bound group's own binding. */
  lemma MapNamesBinding(bs: seq<Binding>)
    requires Distinct(bs)
    ensures forall i :: 0 <= i < |bs| && Present(bs[i].group) ==>
      bs[i].group.value in BindingMap(bs) && BindingMap(bs)[bs[i].group.value] == bs[i].pk
  {
    var m := BindingMap(bs);
    BindingMapSound(bs);
    forall i | 0 <= i < |bs| && Present(bs[i].group)
      ensures bs[i].group.value in m && m[bs[i].group.value] == bs[i].pk
    {
      var g := bs[i].group.value;
      assert g in Groups(bs);
      var j :| 0 <= j < |bs| && bs[j] == Binding(m[g], Some(g));
      if j < i {
        assert bs[j].group == bs[i].group;
      } else if i < j {
        assert bs[i].group == bs[j].group;
      }
    }
  }

  /** The bindings that survive are those of the groups not planned for
      deletion. */
  lemma KeptIsUnplanned(bs: seq<Binding>, calls: seq<Call>, pk: string, add: set<string>, del: set<string>)
    requires Distinct(bs) && del <= BindingMap(bs).Keys
    requires Reconciles(calls, BindingMap(bs), pk, add, del)
    ensures Kept(bs, calls) == BindingMap(bs).Keys - del
  {
    var m := BindingMap(bs);
    BindingMapSound(bs);
    MapNamesBinding(bs);
    forall x | x in Kept(bs, calls) ensures x in m.Keys - del {
      var i :| 0 <= i < |bs| && Present(bs[i].group) && DeletePolicyBinding(bs[i].pk) !in calls && bs[i].group.value == x;
      assert x in Groups(bs);
    }
    forall x | x in m.Keys - del ensures x in Kept(bs, calls) {
      var i :| 0 <= i < |bs| && bs[i] == Binding(m[x], Some(x));
      forall k | 0 <= k < |calls| ensures calls[k] != DeletePolicyBinding(bs[i].pk) {
        if k < |del| {
          var g :| g in del && g in m && calls[k] == DeletePolicyBinding(m[g]);
          var j :| 0 <= j < |bs| && bs[j] == Binding(m[g], Some(g));
          assert g != x;
          if i < j {
            assert bs[i].pk != bs[j].pk;
          } else if j < i {
            assert bs[j].pk != bs[i].pk;
          }
        } else {
          assert calls[k] in CreateCalls(pk, add);
        }
      }
    }
  }

  /** The groups bound by the calls are those planned for binding. */
  lemma CreatedIsPlanned(calls: seq<Call>, m: map<string, string>, pk: string, add: set<string>, del: set<string>)
    requires Reconciles(calls, m, pk, add, del)
    ensures Created(calls, pk) == add
  {
    forall x | x in Created(calls, pk) ensures x in add {
      var c :| c in calls && c.CreatePolicyBinding? && c.bindingTarget == pk && c.boundGroup == x;
      var k :| 0 <= k < |calls| && calls[k] == c;
      if k < |del| {
        assert calls[k] in DeleteCalls(m, del);
      }
    }
  }

  /** With bindings that repeat neither a pk nor a group, running the
      reconciliation calls leaves the application bound to exactly the
      submitted groups. */
  lemma ReconcileReachesSubmitted(bs: seq<Binding>, pk: string, submitted: set<string>, calls: seq<Call>)
    requires Distinct(bs)
    requires var m := BindingMap(bs); var (add, del) := Plan(m.Keys, submitted); Reconciles(calls, m, pk, add, del)
    ensures BoundAfter(bs, calls, pk) == submitted
  {
    var m := BindingMap(bs);
    var (add, del) := Plan(m.Keys, submitted);
    KeptIsUnplanned(bs, calls, pk, add, del);
    CreatedIsPlanned(calls, m, pk, add, del);
  }

  /** `app_edit`: update the application with the normalised launch URL and
      redirect list; only when that returns 200, read its bindings and
      reconcile them with the submitted groups. */
  method AppEdit(pk: string, name: Option<string>, launchRaw: Option<string>, redirectRaw: Option<string>,
                 submitted: set<string>, updateStatus: int, bindings: seq<Binding>)
    returns (calls: seq<Call>)
    ensures |calls| >= 1 && calls[0] == UpdateApplication(pk, name, EnsureUrl(launchRaw), EditRedirects(redirectRaw))
    ensures updateStatus != 200 ==> |calls| == 1
    ensures updateStatus == 200 ==> (|calls| >= 2 && calls[1] == GetPolicyBindings(pk)
      && var m := BindingMap(bindings); var (add, del) := Plan(m.Keys, submitted);
         Reconciles(calls[2..], m, pk, add, del))
    ensures updateStatus == 200 && Distinct(bindings) ==> BoundAfter(bindings, calls[2..], pk) == submitted
  {
    var launch := EnsureUrl(launchRaw);
    var redirects := EditRedirects(redirectRaw);
    var update := UpdateApplication(pk, name, launch, redirects);
    if updateStatus == 200 {
      var sync := SyncBindings(pk, submitted, bindings);
      calls := [update, GetPolicyBindings(pk)] + sync;
      AfterTwo(update, GetPolicyBindings(pk), sync);
    } else {
      calls := [update];
    }
  }

  /** What follows the first two calls of a trace. */
  lemma AfterTwo(first: Call, second: Call, rest: seq<Call>)
    ensures ([first, second] + rest)[2..] == rest
  {
  }

  /** The two loops of `app_edit`: delete the binding of every group no
      longer submitted, then bind every newly submitted group. */
  method SyncBindings(pk: string, submitted: set<string>, bindings: seq<Binding>) returns (calls: seq<Call>)
    ensures var m := BindingMap(bindings); var (add, del) := Plan(m.Keys, submitted);
      Reconciles(calls, m, pk, add, del)
    ensures Distinct(bindings) ==> BoundAfter(bindings, calls, pk) == submitted
  {
    var existing := BindingMap(bindings);
    var (toAdd, toDelete) := Plan(existing.Keys, submitted);
    var deletions := DeleteBindings(existing, toDelete);
    var creations := CreateBindings(pk, toAdd);
    calls := deletions + creations;
    DeletionsThenCreations(deletions, creations, existing, pk, toAdd, toDelete);
    if Distinct(bindings) {
      ReconcileReachesSubmitted(bindings, pk, submitted, calls);
    }
  }

  /** The deletions followed by the creations have the reconciliation shape. */
  lemma DeletionsThenCreations(deletions: seq<Call>, creations: seq<Call>, m: map<string, string>, pk: string,
                               add: set<string>, del: set<string>)
    requires |deletions| == |del| && |creations| == |add| && del <= m.Keys
    requires forall i :: 0 <= i < |deletions| ==> deletions[i] in DeleteCalls(m, del)
    requires forall g :: g in del ==> DeletePolicyBinding(m[g]) in deletions
    requires forall i :: 0 <= i < |creations| ==> creations[i] in CreateCalls(pk, add)
    requires forall g :: g in add ==> CreatePolicyBinding(pk, g) in creations
    ensures Reconciles(deletions + creations, m, pk, add, del)
  {
    var calls := deletions + creations;
    assert forall i :: |del| <= i < |calls| ==> calls[i] == creations[i - |del|];
  }

  /** `for g_id in to_delete: delete_policy_binding(existing_map[g_id])`. */
  method DeleteBindings(m: map<string, string>, gs: set<string>) returns (calls: seq<Call>)
    requires gs <= m.Keys
    ensures |calls| == |gs|
    ensures forall i :: 0 <= i < |calls| ==> calls[i] in DeleteCalls(m, gs)
    ensures forall g :: g in gs ==> DeletePolicyBinding(m[g]) in calls
  {
    calls := [];
    var done: set<string> := {};
    while done != gs
      invariant done <= gs
      invariant |calls| == |done|
      invariant forall i :: 0 <= i < |calls| ==> calls[i] in DeleteCalls(m, gs)
      invariant forall g :: g in done ==> DeletePolicyBinding(m[g]) in calls
      decreases gs - done
    {
      assert gs - done != {};
      var g :| g in gs - done;
      calls := calls + [DeletePolicyBinding(m[g])];
      done := done + {g};
    }
  }

  /** `for g_id in to_add: create_policy_binding(pk, g_id)`. */
  method CreateBindings(pk: string, gs: set<string>) returns (calls: seq<Call>)
    ensures |calls| == |gs|
    ensures forall i :: 0 <= i < |calls| ==> calls[i] in CreateCalls(pk, gs)
    ensures forall g :: g in gs ==> CreatePolicyBinding(pk, g) in calls
  {
    calls := [];
    var done: set<string> := {};
    while done != gs
      invariant done <= gs
      invariant |calls| == |done|
      invariant forall i :: 0 <= i < |calls| ==> calls[i] in CreateCalls(pk, gs)
      invariant forall g :: g in done ==> CreatePolicyBinding(pk, g) in calls
      decreases gs - done
    {
      assert gs - done != {};
      var g :| g in gs - done;
      calls := calls + [CreatePolicyBinding(pk, g)];
      done := done + {g};
    }
  }

  // ---- register ----

  /** A row of the invites table. */
  datatype Invite = Invite(email: string, groupPk: Option<string>, used: bool)

  datatype Verb = Get | Post

  /** The parts of a `register` request the handler reads. */
  datatype RegisterRequest = RegisterRequest(
    verb: Verb,
    queryToken: Option<string>,
    formToken: Option<string>,
    username: Option<string>,
    password: Option<string>,
    confirm: Option<string>)

  /** The message flashed above the registration form. */
  datatype Notice = Mismatch | TooShort | Failed

  datatype Page =
    | ErrorPage(status: int)
    | RegisterForm(token: string, email: string, notice: Option<Notice>)
    | Welcome(username: Option<string>)

  /** `request.args.get('token') or request.form.get('token')`. */
  function ChooseToken(req: RegisterRequest): (t: Option<string>)
    ensures Present(t) <==> Present(req.queryToken) || Present(req.formToken)
    ensures Present(req.queryToken) ==> t == req.queryToken
    ensures !Present(req.queryToken) ==> t == req.formToken
  {
    if Present(req.queryToken) then req.queryToken else req.formToken
  }

  /** The outcome of the checks before an account is created: a page that
      ends the request, or the go-ahead with the token, its invite and the
      password. */
  datatype Screening = Reject(page: Page) | Accept(token: string, invite: Invite, password: string)

  const MinPasswordLength := 8

  /** The checks of `register`, in order: a token must be given (400); it
      must name an unused invite (403); a GET shows the form; the password
      must equal its confirmation, and only then is its length checked. A
      POST with neither password field fails on the length check with a
      server error. */
  function Screen(req: RegisterRequest, invites: map<string, Invite>): (r: Screening)
    ensures r == Reject(ErrorPage(400)) <==> !Present(ChooseToken(req))
    ensures r == Reject(ErrorPage(403)) <==>
      Present(ChooseToken(req)) && (ChooseToken(req).value !in invites || invites[ChooseToken(req).value].used)
    ensures r.Accept? <==>
      && Present(ChooseToken(req)) && ChooseToken(req).value in invites && !invites[ChooseToken(req).value].used
      && req.verb.Post? && req.password == req.confirm && req.password.Some?
      && |req.password.value| >= MinPasswordLength
    ensures r.Accept? ==>
      r.token == ChooseToken(req).value && r.invite == invites[r.token] && r.password == req.password.value
    ensures r.Reject? && r.page.RegisterForm? ==>
      r.page.token == ChooseToken(req).value && r.page.email == invites[r.page.token].email
      && (r.page.notice == Some(Mismatch) <==> req.verb.Post? && req.password != req.confirm)
      && (r.page.notice.None? <==> req.verb.Get?)
    ensures Present(ChooseToken(req)) && ChooseToken(req).value in invites && !invites[ChooseToken(req).value].used ==>
      var token := ChooseToken(req).value;
      && (req.verb.Get? ==> r == Reject(RegisterForm(token, invites[token].email, None)))
      && (req.verb.Post? && req.password == req.confirm && req.password.None? ==> r == Reject(ErrorPage(500)))
      && (req.verb.Post? && req.password == req.confirm && req.password.Some? && |req.password.value| < MinPasswordLength ==>
            r == Reject(RegisterForm(token, invites[token].email, Some(TooShort))))
  {
    var token := ChooseToken(req);
    if !Present(token) then Reject(ErrorPage(400))
    else if token.value !in invites || invites[token.value].used then Reject(ErrorPage(403))
    else
      var invite := invites[token.value];
      if req.verb.Get? then Reject(RegisterForm(token.value, invite.email, None))
      else if req.password != req.confirm then Reject(RegisterForm(token.value, invite.email, Some(Mismatch)))
      else if req.password.None? then Reject(ErrorPage(500))
      else if |req.password.value| < MinPasswordLength then Reject(RegisterForm(token.value, invite.email, Some(TooShort)))
      else Accept(token.value, invite, req.password.value)
  }

  /** The mismatch is reported before the length: a short password that
      differs from its confirmation is refused as a mismatch. */
  lemma MismatchBeforeLength(req: RegisterRequest, invites: map<string, Invite>)
    requires Present(ChooseToken(req)) && ChooseToken(req).value in invites && !invites[ChooseToken(req).value].used
    requires req.verb.Post? && req.password != req.confirm
    ensures Screen(req, invites) == Reject(RegisterForm(ChooseToken(req).value, invites[ChooseToken(req).value].email, Some(Mismatch)))
  {
  }

  /** `f"{username}@{MAIL_DOMAIN}"`; a missing user name prints as `None`. */
  function SystemEmail(username: Option<string>, domain: string): string {
    (if username.Some? then username.value else "None") + "@" + domain
  }

  /** The invites table. */
  class InviteStore {
    var invites: map<string, Invite>

    constructor(invites: map<string, Invite>)
      ensures this.invites == invites
    {
      this.invites := invites;
    }

    /** `register`: after the checks, create the account (user name as
        login and display name, a mailbox address in the mail domain, the
        invite's group), and mark the invite used only when that succeeded. */
    method Register(req: RegisterRequest, mailDomain: string, replies: UserReplies) returns (page: Page, calls: seq<Call>)
      modifies this
      ensures var s := Screen(req, old(invites));
        && (s.Reject? ==> page == s.page && calls == [] && invites == old(invites))
        && (s.Accept? ==>
              var (ok, trace) := FullUserCalls(req.username, req.username, SystemEmail(req.username, mailDomain),
                                               s.password, s.invite.groupPk, replies);
              && calls == trace
              && (ok ==> page == Welcome(req.username) && invites == old(invites)[s.token := s.invite.(used := true)])
              && (!ok ==> page == RegisterForm(s.token, s.invite.email, Some(Failed)) && invites == old(invites)))
    {
      calls := [];
      var s := Screen(req, invites);
      if s.Reject? {
        return s.page, calls;
      }
      var email := SystemEmail(req.username, mailDomain);
      var ok;
      ok, calls := CreateFullUser(req.username, req.username, email, s.password, s.invite.groupPk, replies);
      if ok {
        invites := invites[s.token := invites[s.token].(used := true)];
        page := Welcome(req.username);
      } else {
        page := RegisterForm(s.token, s.invite.email, Some(Failed));
      }
    }
  }

  /** An invite is used by at most one registration: once used it is
      refused, and a registration marks only its own invite, and only on
      success. */
  lemma InviteUsedOnce(req: RegisterRequest, invites: map<string, Invite>, t: string)
    requires t != "" && t in invites && invites[t].used && ChooseToken(req) == Some(t)
    ensures Screen(req, invites) == Reject(ErrorPage(403))
  {
  }

  // ---- dashboard ----

  datatype User = User(pk: int, username: Option<string>)

  datatype Group = Group(pk: string, name: string)

  datatype Provider = Provider(pk: int, clientId: Option<string>)

  datatype App = App(pk: string, slug: string, provider: Option<int>)

  /** The administrative groups never listed in the groups table. */
  const SystemGroups: seq<string> := ["authentik Admins", "authentik Read-only"]

  /** The users listed: everyone but the signed-in user, when there is one. */
  function VisibleUsers(users: seq<User>, current: Option<string>): (r: seq<User>)
    ensures forall u :: u in r ==> u in users && (Present(current) ==> u.username != current)
    ensures forall u ::
      multiset(r)[u] == (if Present(current) && u.username == current then 0 else multiset(users)[u])
  {
    if Present(current) then Keep(users, (u: User) => u.username != current) else users
  }

  /** The groups listed in the groups table: neither an administrative group
      nor one of the signed-in user's roles. */
  function VisibleGroups(groups: seq<Group>, roles: seq<string>): (r: seq<Group>)
    ensures forall g :: g in r ==> g.name !in SystemGroups && g.name !in roles
    ensures forall g ::
      multiset(r)[g] == (if g.name in SystemGroups || g.name in roles then 0 else multiset(groups)[g])
  {
    Keep(groups, (g: Group) => g.name !in SystemGroups && g.name !in roles)
  }

  /** `{p['pk']: p for p in providers}`: for a repeated pk the later
      provider wins. */
  function ProviderIndex(providers: seq<Provider>): map<int, Provider> {
    if providers == [] then map[]
    else
      var p := providers[|providers| - 1];
      ProviderIndex(providers[..|providers| - 1])[p.pk := p]
  }

  /** The client id shown for an application: its provider's, or "-" when
      its provider is not among the providers. */
  function ClientIdOf(app: App, index: map<int, Provider>): Option<string> {
    if app.provider.Some? && app.provider.value in index then index[app.provider.value].clientId else Some("-")
  }

  /** The applications listed: all but those whose client id is the
      manager's own. */
  function VisibleApps(apps: seq<App>, providers: seq<Provider>, own: Option<string>): (r: seq<App>)
    ensures forall a :: a in r ==> ClientIdOf(a, ProviderIndex(providers)) != own
    ensures forall a ::
      multiset(r)[a] == (if ClientIdOf(a, ProviderIndex(providers)) == own then 0 else multiset(apps)[a])
  {
    var index := ProviderIndex(providers);
    Keep(apps, (a: App) => ClientIdOf(a, index) != own)
  }

  /** The providers `dashboard` keeps: all but those whose client id is the
      manager's own. The list is computed and then discarded: it is not
      passed to the page, so no provider list is shown. */
  function VisibleProviders(providers: seq<Provider>, own: Option<string>): (r: seq<Provider>)
    ensures forall p :: p in r ==> p.clientId != own
    ensures forall p :: multiset(r)[p] == if p.clientId == own then 0 else multiset(providers)[p]
  {
    Keep(providers, (p: Provider) => p.clientId != own)
  }

  /** With distinct provider pks, each provider is indexed under its pk. */
  lemma {:induction false} IndexFindsProvider(providers: seq<Provider>, i: nat)
    requires i < |providers|
    requires forall j, k :: 0 <= j < k < |providers| ==> providers[j].pk != providers[k].pk
    ensures providers[i].pk in ProviderIndex(providers) && ProviderIndex(providers)[providers[i].pk] == providers[i]
    decreases |providers|
  {
    var front := providers[..|providers| - 1];
    if i < |providers| - 1 {
      assert front[i] == providers[i];
      IndexFindsProvider(front, i);
    }
  }

  /** The two filters agree: an application bound to a provider is kept by
      the applications filter exactly when that provider is kept by the
      providers filter (whose result the page never shows). */
  lemma AppKeptWithItsProvider(apps: seq<App>, providers: seq<Provider>, own: Option<string>, a: App, i: nat)
    requires forall j, k :: 0 <= j < k < |providers| ==> providers[j].pk != providers[k].pk
    requires a in apps && i < |providers| && a.provider == Some(providers[i].pk)
    ensures a in VisibleApps(apps, providers, own) <==> providers[i] in VisibleProviders(providers, own)
  {
    IndexFindsProvider(providers, i);
    var r := VisibleApps(apps, providers, own);
    var q := VisibleProviders(providers, own);
    assert providers[i] in providers;
    assert a in r <==> multiset(r)[a] > 0;
    assert providers[i] in q <==> multiset(q)[providers[i]] > 0;
  }
}
