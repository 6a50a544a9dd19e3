/** manager/actions.py: the two multi-step actions. Each external call's
    reply is an input, and each action returns the calls it issued, in
    order, so that its rollback behaviour can be stated. */
module Actions {
  import opened Basics
  import opened Text
  import opened Urls
  import opened Remote

  // ---- create_full_user_action ----

  /** The replies `create_full_user_action` reads: the status of the
      account creation, the `pk` in its body, and the status of setting the
      password. The mailbox reply is never inspected. */
  datatype UserReplies = UserReplies(createStatus: int, userPk: Option<int>, passwordStatus: int)

  /** Python truthiness of the returned pk: present and not 0. */
  predicate PkPresent(pk: Option<int>) {
    pk.Some? && pk.value != 0
  }

  /** The replies with which the action succeeds. */
  predicate Succeeds(r: UserReplies) {
    r.createStatus in {200, 201} && PkPresent(r.userPk) && r.passwordStatus in {200, 204}
  }

  /** The calls `create_full_user_action` issues and whether it succeeds:
      create the account; when that succeeded and returned a pk, set its
      password, deleting the account again if that fails; only then create
      the mailbox. The mailbox reply does not affect the outcome. */
  function FullUserCalls(username: Option<string>, name: Option<string>, email: string, password: string,
                         group: Option<string>, r: UserReplies): (bool, seq<Call>)
  {
    var create := CreateUser(username, name, email, group);
    if r.createStatus !in {200, 201} || !PkPresent(r.userPk) then (false, [create])
    else if r.passwordStatus !in {200, 204} then
      (false, [create, SetPassword(r.userPk.value, password), DeleteUser(r.userPk.value)])
    else (true, [create, SetPassword(r.userPk.value, password), CreateMailbox(username, name, password, email)])
  }

  /** The action succeeds exactly for the replies that create the account,
      return its pk and accept the password; the account is always created
      first, and the mailbox is created exactly when the action succeeds. */
  lemma FullUserOutcome(username: Option<string>, name: Option<string>, email: string, password: string,
                        group: Option<string>, r: UserReplies)
    ensures var (ok, calls) := FullUserCalls(username, name, email, password, group, r);
      && (ok <==> Succeeds(r))
      && |calls| >= 1 && calls[0] == CreateUser(username, name, email, group)
      && (ok <==> CreateMailbox(username, name, password, email) in calls)
  {
  }

  /** A failed action never leaves behind an account whose password it set:
      every account it set a password on is deleted again, as its last call;
      in particular, an account created with a pk whose password was refused
      is deleted. The only account ever deleted is the one just created, and
      only on failure. A refused creation, or one without a pk, issues no
      further call. */
  lemma FullUserRollsBack(username: Option<string>, name: Option<string>, email: string, password: string,
                          group: Option<string>, r: UserReplies)
    ensures var (ok, calls) := FullUserCalls(username, name, email, password, group, r);
      && (!ok ==> forall p :: SetPassword(p, password) in calls ==> calls[|calls| - 1] == DeleteUser(p))
      && (ok ==> forall c :: c in calls ==> !c.DeleteUser?)
      && (r.createStatus !in {200, 201} || !PkPresent(r.userPk) ==> |calls| == 1)
      && (!ok && r.createStatus in {200, 201} && PkPresent(r.userPk) ==>
            SetPassword(r.userPk.value, password) in calls && calls[|calls| - 1] == DeleteUser(r.userPk.value))
      && (forall c :: c in calls && c.DeleteUser? ==> !ok && c == DeleteUser(r.userPk.value))
  {
    var (ok, calls) := FullUserCalls(username, name, email, password, group, r);
    if !ok && |calls| == 3 {
      forall p | SetPassword(p, password) in calls ensures calls[2] == DeleteUser(p) {
        assert calls[0].CreateUser? && calls[2].DeleteUser?;
      }
    }
  }

  /** `create_full_user_action`, step by step. */
  method CreateFullUser(username: Option<string>, name: Option<string>, email: string, password: string,
                        group: Option<string>, replies: UserReplies)
    returns (ok: bool, calls: seq<Call>)
    ensures (ok, calls) == FullUserCalls(username, name, email, password, group, replies)
  {
    calls := [CreateUser(username, name, email, group)];
    if replies.createStatus !in {200, 201} {
      return false, calls;
    }
    var userPk := replies.userPk;
    if userPk.Some? && userPk.value != 0 {
      calls := calls + [SetPassword(userPk.value, password)];
      if replies.passwordStatus !in {200, 204} {
        calls := calls + [DeleteUser(userPk.value)];
        assert calls == [CreateUser(username, name, email, group), SetPassword(userPk.value, password), DeleteUser(userPk.value)];
        return false, calls;
      }
    } else {
      return false, calls;
    }
    calls := calls + [CreateMailbox(username, name, password, email)];
    assert calls == [CreateUser(username, name, email, group), SetPassword(userPk.value, password),
                     CreateMailbox(username, name, password, email)];
    ok := true;
  }

  // ---- create_oidc_app_action ----

  const ImplicitFlow := "default-provider-authorization-implicit-consent"
  const ExplicitFlow := "default-provider-authorization-explicit-consent"
  const InvalidationFlow := "default-provider-invalidation-flow"

  /** The replies `create_oidc_app_action` reads: the flows the identity
      provider knows (slug to pk), its property mappings, the status and pk
      of the provider creation and the status of the application creation. */
  datatype AppReplies = AppReplies(
    flows: map<string, string>,
    mappings: seq<string>,
    providerStatus: int,
    providerPk: int,
    applicationStatus: int)

  predicate IsKeyChar(c: char) {
    'a' <= c <= 'z' || 'A' <= c <= 'Z' || '0' <= c <= '9'
  }

  /** A generated key of length `n`: ASCII letters and digits. */
  predicate IsKey(k: string, n: nat) {
    |k| == n && forall i :: 0 <= i < |k| ==> IsKeyChar(k[i])
  }

  /** The three keys the action draws at random: the fallback slug, the
      client id and the client secret. */
  datatype Keys = Keys(slugKey: string, clientId: string, clientSecret: string)

  predicate WellFormed(k: Keys) {
    IsKey(k.slugKey, 8) && IsKey(k.clientId, 40) && IsKey(k.clientSecret, 128)
  }

  /** How `create_oidc_app_action` ends. `Raised`: a missing name makes
      `name.lower()` raise before any call is issued. */
  datatype AppOutcome = Created | NoFlow | ProviderFailed | ApplicationFailed | Raised

  /** `get_flow_pk`: the pk of the flow with that slug, if there is one. */
  function FlowPk(flows: map<string, string>, slug: string): Option<string> {
    if slug in flows then Some(flows[slug]) else None
  }

  /** The flow asked for first: the implicit-consent flow for the mode
      "implicit", the explicit-consent flow for anything else. */
  function PrimaryFlow(flowMode: Option<string>): (slug: string)
    ensures slug == ImplicitFlow <==> flowMode == Some("implicit")
    ensures slug == ImplicitFlow || slug == ExplicitFlow
  {
    if flowMode == Some("implicit") then ImplicitFlow else ExplicitFlow
  }

  /** The authorization flow the provider is created with: the primary one,
      or the explicit-consent one when the primary one is missing. */
  function AuthFlow(flowMode: Option<string>, flows: map<string, string>): (r: Option<string>)
    ensures Present(r) ==> r == FlowPk(flows, PrimaryFlow(flowMode)) || r == FlowPk(flows, ExplicitFlow)
    ensures !Present(r) <==> !Present(FlowPk(flows, PrimaryFlow(flowMode))) && !Present(FlowPk(flows, ExplicitFlow))
    ensures Present(FlowPk(flows, PrimaryFlow(flowMode))) ==> r == FlowPk(flows, PrimaryFlow(flowMode))
    ensures !Present(FlowPk(flows, PrimaryFlow(flowMode))) ==> r == FlowPk(flows, ExplicitFlow)
  {
    var first := FlowPk(flows, PrimaryFlow(flowMode));
    if Present(first) then first else FlowPk(flows, ExplicitFlow)
  }

  /** The lookups issued before the action can fail: the primary flow, the
      explicit-consent flow when the primary one is missing, the
      invalidation flow and the property mappings. */
  function Lookups(flowMode: Option<string>, flows: map<string, string>): (r: seq<Call>)
    ensures 3 <= |r| <= 4 && r[0] == GetFlowPk(PrimaryFlow(flowMode)) && r[|r| - 1] == GetPropertyMappings
    ensures forall c :: c in r ==> c.GetFlowPk? || c.GetPropertyMappings?
  {
    var primary := PrimaryFlow(flowMode);
    [GetFlowPk(primary)]
      + (if Present(FlowPk(flows, primary)) then [] else [GetFlowPk(ExplicitFlow)])
      + [GetFlowPk(InvalidationFlow), GetPropertyMappings]
  }

  /** Whether the trace creates a provider. */
  predicate IssuesProvider(calls: seq<Call>) {
    exists i :: 0 <= i < |calls| && calls[i].CreateProvider?
  }

  /** The provider `create_oidc_app_action` asks for. */
  function ProviderCall(name: string, uris: seq<RedirectUri>, clientType: Option<string>,
                        flowMode: Option<string>, r: AppReplies, keys: Keys): Call
    requires Present(AuthFlow(flowMode, r.flows))
  {
    CreateProvider(name, AuthFlow(flowMode, r.flows).value, FlowPk(r.flows, InvalidationFlow), clientType,
                   uris, keys.clientId, keys.clientSecret, r.mappings)
  }

  /** The calls `create_oidc_app_action` issues and its outcome: look up the
      flows and mappings, fail when no authorization flow exists, create the
      provider, then the application, deleting the provider again when the
      application cannot be created. `uris` are the parsed redirect URIs and
      `slug` the application slug. */
  function OidcAppCalls(name: string, uris: seq<RedirectUri>, slug: string, launchUrl: Option<string>,
                        clientType: Option<string>, flowMode: Option<string>, r: AppReplies, keys: Keys)
    : (AppOutcome, seq<Call>)
  {
    var lookups := Lookups(flowMode, r.flows);
    if !Present(AuthFlow(flowMode, r.flows)) then (NoFlow, lookups)
    else
      var provider := ProviderCall(name, uris, clientType, flowMode, r, keys);
      if r.providerStatus != 201 then (ProviderFailed, lookups + [provider])
      else
        var app := CreateApplication(name, slug, r.providerPk, launchUrl);
        if r.applicationStatus == 201 then (Created, lookups + [provider, app])
        else (ApplicationFailed, lookups + [provider, app, DeleteProvider(r.providerPk)])
  }

  /** The action fails before any provider is created exactly when neither
      the requested flow nor the explicit-consent fallback exists; it
      succeeds exactly when a flow exists and both creations return 201. */
  lemma OidcAppOutcome(name: string, uris: seq<RedirectUri>, slug: string, launchUrl: Option<string>,
                       clientType: Option<string>, flowMode: Option<string>, r: AppReplies, keys: Keys)
    ensures var (outcome, calls) := OidcAppCalls(name, uris, slug, launchUrl, clientType, flowMode, r, keys);
      && (outcome == NoFlow <==> !Present(FlowPk(r.flows, PrimaryFlow(flowMode))) && !Present(FlowPk(r.flows, ExplicitFlow)))
      && (outcome == NoFlow <==> !IssuesProvider(calls))
      && (outcome == ProviderFailed <==> outcome != NoFlow && r.providerStatus != 201)
      && (outcome == Created <==> outcome != NoFlow && r.providerStatus == 201 && r.applicationStatus == 201)
      && outcome != Raised
  {
    var (outcome, calls) := OidcAppCalls(name, uris, slug, launchUrl, clientType, flowMode, r, keys);
    var lookups := Lookups(flowMode, r.flows);
    if outcome == NoFlow {
      assert calls == lookups;
      forall i | 0 <= i < |calls| ensures !calls[i].CreateProvider? {
        assert calls[i] in lookups;
      }
    } else {
      assert calls[|lookups|].CreateProvider?;
    }
  }

  /** A provider is left in place exactly when the action succeeds: an
      application is only created under a provider that was created, with
      the slug of the name (or the generated key), and when the application
      fails the provider is deleted. */
  lemma OidcAppNoOrphan(name: string, uris: seq<RedirectUri>, slug: string, launchUrl: Option<string>,
                        clientType: Option<string>, flowMode: Option<string>, r: AppReplies, keys: Keys)
    ensures var (outcome, calls) := OidcAppCalls(name, uris, slug, launchUrl, clientType, flowMode, r, keys);
      && ((IssuesProvider(calls) && r.providerStatus == 201 && DeleteProvider(r.providerPk) !in calls) <==> outcome == Created)
      && forall c :: c in calls && c.CreateApplication? ==>
           c == CreateApplication(name, slug, r.providerPk, launchUrl) && r.providerStatus == 201
  {
    var (outcome, calls) := OidcAppCalls(name, uris, slug, launchUrl, clientType, flowMode, r, keys);
    var lookups := Lookups(flowMode, r.flows);
    OidcAppOutcome(name, uris, slug, launchUrl, clientType, flowMode, r, keys);
    assert forall c :: c in lookups ==> !c.CreateApplication? && !c.DeleteProvider?;
    var app := CreateApplication(name, slug, r.providerPk, launchUrl);
    if outcome == NoFlow {
      assert calls == lookups;
    } else {
      var provider := ProviderCall(name, uris, clientType, flowMode, r, keys);
      if outcome == ProviderFailed {
        assert calls == lookups + [provider];
      } else if outcome == Created {
        assert calls == lookups + [provider, app];
      } else {
        assert calls == lookups + [provider, app, DeleteProvider(r.providerPk)];
        assert calls[|calls| - 1] == DeleteProvider(r.providerPk);
      }
    }
  }

  /** `create_oidc_app_action`: the slug of the name (or the generated key
      when it has none) and the parsed redirect URIs, then the calls. The
      name is the form field as read, so it may be missing; the slug is
      computed first, so a missing name raises before any call. */
  method CreateOidcApp(name: Option<string>, redirectRaw: Option<string>, launchUrl: Option<string>,
                       clientType: Option<string>, flowMode: Option<string>, replies: AppReplies, keys: Keys)
    returns (outcome: AppOutcome, calls: seq<Call>)
    requires WellFormed(keys)
    ensures name.None? ==> outcome == Raised && calls == []
    ensures name.Some? ==>
      (outcome, calls) == OidcAppCalls(name.value, RedirectUris(redirectRaw), SlugOrKey(name.value, keys.slugKey),
                                       launchUrl, clientType, flowMode, replies, keys)
    ensures outcome == Raised <==> name.None?
  {
    if name.None? {
      return Raised, [];
    }
    var slug := SlugOrKey(name.value, keys.slugKey);
    var redirectUris := ParseRedirectUris(redirectRaw);
    outcome, calls := IssueOidcApp(name.value, redirectUris, slug, launchUrl, clientType, flowMode, replies, keys);
  }

  /** The calls of `create_oidc_app_action`, one after the other. */
  method IssueOidcApp(name: string, redirectUris: seq<RedirectUri>, slug: string, launchUrl: Option<string>,
                      clientType: Option<string>, flowMode: Option<string>, replies: AppReplies, keys: Keys)
    returns (outcome: AppOutcome, calls: seq<Call>)
    ensures (outcome, calls) == OidcAppCalls(name, redirectUris, slug, launchUrl, clientType, flowMode, replies, keys)
  {
    var flowSlug := if flowMode == Some("implicit") then ImplicitFlow else ExplicitFlow;
    calls := [GetFlowPk(flowSlug)];
    var authFlowPk := FlowPk(replies.flows, flowSlug);
    if !Present(authFlowPk) {
      calls := calls + [GetFlowPk(ExplicitFlow)];
      authFlowPk := FlowPk(replies.flows, ExplicitFlow);
    }
    var invalidationFlowPk := FlowPk(replies.flows, InvalidationFlow);
    calls := calls + [GetFlowPk(InvalidationFlow), GetPropertyMappings];
    assert calls == Lookups(flowMode, replies.flows);
    if !Present(authFlowPk) {
      return NoFlow, calls;
    }
    ghost var lookups := calls;
    calls := calls + [CreateProvider(name, authFlowPk.value, invalidationFlowPk, clientType, redirectUris,
                                     keys.clientId, keys.clientSecret, replies.mappings)];
    if replies.providerStatus != 201 {
      return ProviderFailed, calls;
    }
    var providerPk := replies.providerPk;
    ghost var provider := calls[|calls| - 1];
    calls := calls + [CreateApplication(name, slug, providerPk, launchUrl)];
    assert calls == lookups + [provider, CreateApplication(name, slug, providerPk, launchUrl)];
    if replies.applicationStatus == 201 {
      return Created, calls;
    }
    calls := calls + [DeleteProvider(providerPk)];
    assert calls == lookups + [provider, CreateApplication(name, slug, providerPk, launchUrl), DeleteProvider(providerPk)];
    outcome := ApplicationFailed;
  }
}
