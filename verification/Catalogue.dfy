/** The permission catalogue: what a person picks, and the scopes each pick stands
    for (util/permissions.go, util/scopes.go). */
module Catalogue {

  datatype Permission = Permission(key: string, membersOnly: bool, scopes: seq<string>)

  const VAULT_READ := "vault:read"
  const VAULT_WRITE := "vault:write"
  const MEMBERS_ADD := "members:add"
  const MEMBERS_REMOVE := "members:remove"

  /** In display order. */
  function Permissions(): seq<Permission> {
    [ Permission("vault:read", true, ["record:read", "section:read"]),
      Permission("vault:write", true, ["record:create", "record:update", "record:delete",
                                       "section:create", "section:update", "section:delete"]),
      Permission("responses:read", false, ["response:read"]),
      Permission("responses:manage", false, ["response:update", "response:delete"]),
      Permission("shares:read", false, ["link:read"]),
      Permission("shares:manage", false, ["link:create", "link:update", "link:delete"]),
      Permission("requests:read", false, ["request:read"]),
      Permission("requests:manage", false, ["request:create", "request:update", "request:delete"]),
      Permission("templates:read", false, ["template:read"]),
      Permission("templates:manage", false, ["template:create", "template:update", "template:delete"]),
      Permission("identities:read", false, ["identity:read"]),
      Permission("identities:manage", false, ["identity:create", "identity:update", "identity:delete"]),
      Permission("attestations:read", false, ["attestation:read"]),
      Permission("attestations:issue", false, ["attestation:create", "attestation:update", "attestation:delete",
                                               "attestation:read"]),
      Permission("contacts:read", false, ["contact:read"]),
      Permission("contacts:manage", false, ["contact:create", "contact:update", "contact:delete"]),
      Permission("members:read", false, ["workspaceMembers:read"]),
      Permission("members:add", false, ["workspaceMembers:create", "workspaceMembers:read"]),
      Permission("members:remove", false, ["workspaceMembers:update", "workspaceMembers:delete",
                                           "workspaceMembers:read"]),
      Permission("settings:manage", false, ["workspaces:update", "workspaces:read", "workspaces:delete"]),
      Permission("webhooks:manage", false, ["webhook:manage"]) ]
  }

  /** Every scope there is, in the order the source lists them. */
  function AllScopes(): seq<string> {
    ["record:read", "record:create", "record:update", "record:delete",
     "response:read", "response:update", "response:delete",
     "section:read", "section:create", "section:update", "section:delete",
     "workspaces:read", "workspaces:create", "workspaces:update", "workspaces:delete",
     "workspaceMembers:read", "workspaceMembers:create", "workspaceMembers:update", "workspaceMembers:delete",
     "template:read", "template:create", "template:update", "template:delete",
     "link:read", "link:create", "link:update", "link:delete",
     "identity:read", "identity:create", "identity:update", "identity:delete",
     "request:read", "request:create", "request:update", "request:delete",
     "notification:read", "notification:update", "notification:delete",
     "attestation:read", "attestation:create", "attestation:update", "attestation:delete",
     "contact:read", "contact:create", "contact:update", "contact:delete",
     "webhook:manage"]
  }

  const VAULT_SCOPES: set<string> := {
    "record:read", "record:create", "record:update", "record:delete",
    "section:read", "section:create", "section:update", "section:delete"}

  lemma KeysAreDistinct()
    ensures forall i, j :: 0 <= i < j < |Permissions()| ==> Permissions()[i].key != Permissions()[j].key
  {
  }

  lemma EveryEntryHasScopes()
    ensures forall i :: 0 <= i < |Permissions()| ==> Permissions()[i].scopes != []
  {
  }

  lemma VaultEntries()
    ensures |Permissions()| == 21 && Permissions()[0].key == VAULT_READ && Permissions()[1].key == VAULT_WRITE
    ensures forall i :: 0 <= i < |Permissions()| ==> (Permissions()[i].membersOnly <==> i < 2)
    ensures forall i :: 0 <= i < 2 ==> forall s :: s in Permissions()[i].scopes ==> s in VAULT_SCOPES
    ensures forall s :: s in VAULT_SCOPES ==> s in Permissions()[0].scopes || s in Permissions()[1].scopes
  {
  }

  lemma OtherEntriesHoldNoVaultScope()
    ensures forall i :: 2 <= i < |Permissions()| ==> forall s :: s in Permissions()[i].scopes ==> s !in VAULT_SCOPES
  {
  }
}
