/** Names of credentials, shared by the login, lifecycle and subscription models. */
module ProviderAuth {
  datatype AuthRef = AuthRef(owner: string, provider: string, profile: string)
}
