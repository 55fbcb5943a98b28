/** Abstract snapshots of the collaborators the add-contact screen reads:
    protocol providers and their account identities, the spinner's account
    items, protocol contacts, meta contacts and meta contact groups.
    Java references that may be null are modelled with Option. */
module ContactTypes {

  datatype Option<+T> = None | Some(value: T)

  /** The account identity of a provider (AccountID); only the
      "preferred provider" flag matters to this screen. */
  datatype AccountId = AccountId(accountName: string, preferred: bool)

  /** A registered protocol provider. `hasPresence` stands for
      getOperationSet(OperationSetPresence.class) returning non-null. */
  datatype Provider = Provider(providerId: nat, hasPresence: bool, accountId: AccountId)

  /** An item of the account spinner; its provider is None when no
      provider is registered for the account. */
  datatype Account = Account(accountId: AccountId, protocolProvider: Option<Provider>)

  /** A protocol-level contact: an address on a given provider. */
  datatype Contact = Contact(address: string, provider: Provider)

  /** A meta contact aggregating protocol contacts. */
  datatype MetaContact = MetaContact(metaUid: nat, contacts: seq<Contact>)

  /** A node of the meta contact group tree. */
  datatype Group = Group(groupUid: nat, groupName: string, subgroups: seq<Group>)

  /** A contact of `mc` with exactly this address and provider. */
  predicate HasContact(mc: MetaContact, address: string, provider: Provider)
  {
    exists i :: 0 <= i < |mc.contacts| && mc.contacts[i] == Contact(address, provider)
  }

  /** MetaContact.getContact(address, provider): the first matching
      protocol contact, or None when the meta contact holds none. */
  function GetContact(mc: MetaContact, address: string, provider: Provider): (r: Option<Contact>)
    ensures r.Some? <==> HasContact(mc, address, provider)
    ensures r.Some? ==> r.value == Contact(address, provider) && r.value in mc.contacts
  {
    FindContact(mc.contacts, Contact(address, provider))
  }

  /** Linear search for `c` in `cs`. */
  function FindContact(cs: seq<Contact>, c: Contact): (r: Option<Contact>)
    ensures r.Some? <==> c in cs
    ensures r.Some? ==> r.value == c
  {
    if |cs| == 0 then None
    else if cs[0] == c then Some(cs[0])
    else FindContact(cs[1..], c)
  }
}
