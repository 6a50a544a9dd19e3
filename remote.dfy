/** The calls the manager issues to the identity provider and to the mail
    server, with the arguments that matter to the model. A form value or a
    reply field that may be missing is an `Option`. */
module Remote {
  import opened Basics
  import opened Urls

  datatype Call =
    | CreateUser(username: Option<string>, name: Option<string>, email: string, group: Option<string>)
    | SetPassword(userPk: int, password: string)
    | DeleteUser(userPk: int)
    | CreateMailbox(mailboxName: Option<string>, description: Option<string>, secret: string, address: string)
    | DeleteMailbox(mailboxName: Option<string>)
    | GetFlowPk(flowSlug: string)
    | GetPropertyMappings
    | CreateProvider(
        providerName: string, flowPk: string, invalidationFlowPk: Option<string>, clientType: Option<string>,
        redirectUris: seq<RedirectUri>, clientId: string, clientSecret: string, mappings: seq<string>)
    | CreateApplication(appName: string, slug: string, providerPk: int, launchUrl: Option<string>)
    | DeleteProvider(providerPk: int)
    | UpdateApplication(appPk: string, title: Option<string>, launch: string, redirects: Option<seq<string>>)
    | GetPolicyBindings(target: string)
    | DeletePolicyBinding(bindingPk: string)
    | CreatePolicyBinding(bindingTarget: string, boundGroup: string)

  /** Python truthiness of an optional text: present and not empty. */
  predicate Present(s: Option<string>) {
    s.Some? && s.value != ""
  }
}
