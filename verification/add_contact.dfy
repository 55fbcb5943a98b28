/** The "add" button of the add-contact screen (onAddClicked): checks the
    selected account and its provider, arms the rename listener when a
    display name was typed, asks the contact list to add the contact and
    closes the screen. The foreign calls are emitted as actions. */
module AddContact {
  import opened ContactTypes
  import opened RenameListener

  /** Why a click did nothing (each is logged and the handler returns). */
  datatype AddError = NoAccountSelected | ProviderUnavailable

  /** The effects of a successful click, in the order they are issued. */
  datatype Action =
    | RegisterListener(listener: Listener)
    | AddContactRequest(provider: Provider, group: Group, address: string)
    | Finish

  datatype Outcome = Aborted(reason: AddError) | Submitted(actions: seq<Action>)

  /** The display-name field holds a non-null, non-empty string. */
  predicate WantsRename(displayName: Option<string>)
  {
    displayName.Some? && |displayName.value| > 0
  }

  /** The listeners registered by `actions`, in order. */
  function Registrations(actions: seq<Action>): seq<Listener>
  {
    if |actions| == 0 then []
    else (if actions[0].RegisterListener? then [actions[0].listener] else []) + Registrations(actions[1..])
  }

  /** The add-contact calls issued by `actions`, in order. */
  function AddCalls(actions: seq<Action>): seq<Action>
  {
    if |actions| == 0 then []
    else (if actions[0].AddContactRequest? then [actions[0]] else []) + AddCalls(actions[1..])
  }

  /** No listener is registered after an add-contact call. */
  ghost predicate RegisteredBeforeAdd(actions: seq<Action>)
  {
    forall i, j :: 0 <= i < |actions| && 0 <= j < |actions| && actions[i].RegisterListener? && actions[j].AddContactRequest? ==> i < j
  }

  /** onAddClicked with the spinner's selected account, the selected group
      and the two text fields. */
  function OnAddClicked(selected: Option<Account>, group: Group, address: string, displayName: Option<string>): (r: Outcome)
    ensures selected.None? ==> r == Aborted(NoAccountSelected)
    ensures selected.Some? && selected.value.protocolProvider.None? ==> r == Aborted(ProviderUnavailable)
    ensures r.Submitted? <==> selected.Some? && selected.value.protocolProvider.Some?
    ensures r.Submitted? ==>
      var pps := selected.value.protocolProvider.value;
      && AddCalls(r.actions) == [AddContactRequest(pps, group, address)]
      && Registrations(r.actions)
         == (if WantsRename(displayName) then [Listener(pps, None, address, displayName.value)] else [])
      && RegisteredBeforeAdd(r.actions)
      && |r.actions| == |Registrations(r.actions)| + 2
      && r.actions[|r.actions| - 2] == AddContactRequest(pps, group, address)
      && r.actions[|r.actions| - 1] == Finish
  {
    match selected
    case None => Aborted(NoAccountSelected)
    case Some(acc) =>
      match acc.protocolProvider
      case None => Aborted(ProviderUnavailable)
      case Some(pps) =>
        var add := AddContactRequest(pps, group, address);
        assert AddCalls([Finish]) == [] && Registrations([Finish]) == [] by {
          assert [Finish][1..] == [];
        }
        assert AddCalls([add, Finish]) == [add] && Registrations([add, Finish]) == [] by {
          assert [add, Finish][1..] == [Finish];
        }
        if WantsRename(displayName) then
          var arm := RegisterListener(Listener(pps, None, address, displayName.value));
          assert [arm, add, Finish][1..] == [add, Finish];
          Submitted([arm, add, Finish])
        else
          Submitted([add, Finish])
  }

  /** What the collaborators have seen: the registered listeners, the
      add-contact calls and whether the screen was closed. */
  datatype Session = Session(listeners: seq<Listener>, adds: seq<Action>, finished: bool)

  /** The collaborators' view after one action. */
  function Perform(s: Session, a: Action): Session
  {
    match a
    case RegisterListener(l) => s.(listeners := s.listeners + [l])
    case AddContactRequest(_, _, _) => s.(adds := s.adds + [a])
    case Finish => s.(finished := true)
  }

  /** The collaborators' view after a sequence of actions. */
  function Run(s: Session, actions: seq<Action>): (t: Session)
    ensures t.listeners == s.listeners + Registrations(actions)
    ensures t.adds == s.adds + AddCalls(actions)
    ensures t.finished <==> s.finished || Finish in actions
    decreases |actions|
  {
    if |actions| == 0 then s
    else
      var a := actions[0];
      var next := Perform(s, a);
      assert next.listeners == s.listeners + (if a.RegisterListener? then [a.listener] else []);
      assert next.adds == s.adds + (if a.AddContactRequest? then [a] else []);
      assert Registrations(actions) == (if a.RegisterListener? then [a.listener] else []) + Registrations(actions[1..]);
      assert AddCalls(actions) == (if a.AddContactRequest? then [a] else []) + AddCalls(actions[1..]);
      var t := Run(next, actions[1..]);
      assert t.listeners == s.listeners + Registrations(actions);
      t
  }

  /** On the success path the listener is armed when the add-contact call
      is issued: the session just before that call already holds it, has
      seen no add, and the screen is still open; it closes afterwards. */
  lemma ArmedBeforeAdd(acc: Account, group: Group, address: string, name: string, s: Session)
    requires acc.protocolProvider.Some? && |name| > 0
    ensures var r := OnAddClicked(Some(acc), group, address, Some(name));
      var k := |r.actions| - 2;
      && 0 <= k
      && r.actions[k].AddContactRequest?
      && Listener(acc.protocolProvider.value, None, address, name) in Run(s, r.actions[..k]).listeners
      && Run(s, r.actions[..k]).adds == s.adds
      && Run(s, r.actions[..k]).finished == s.finished
      && Run(s, r.actions).finished
  {
  }

  /** Every listener the screen arms captures no meta contact, so a
      protocol-contact event never makes it rename anything. */
  lemma ScreenIgnoresProtoEvents(selected: Option<Account>, group: Group, address: string, displayName: Option<string>,
                                 c: Contact, oldParent: Option<MetaContact>, newParent: MetaContact)
    requires OnAddClicked(selected, group, address, displayName).Submitted?
    ensures var ls := Registrations(OnAddClicked(selected, group, address, displayName).actions);
      Deliver(ls, ProtoContactAdded(c, oldParent, newParent)) == []
  {
  }

  /** Starting from no listeners, a click with a display name followed by a
      new meta contact holding the added contact asks for exactly one rename
      of that meta contact to the typed name; one without a display name, or
      a meta contact without the contact, asks for none. */
  lemma RenameAfterAdd(acc: Account, group: Group, address: string, displayName: Option<string>, mc: MetaContact)
    requires acc.protocolProvider.Some?
    ensures var r := OnAddClicked(Some(acc), group, address, displayName);
      var ls := Run(Session([], [], false), r.actions).listeners;
      Deliver(ls, MetaContactAdded(mc))
        == (if WantsRename(displayName) && HasContact(mc, address, acc.protocolProvider.value)
            then [RenameRequest(mc, displayName.value)] else [])
  {
  }

  /** The screen's scenario: "bob@x.com" into the root group with an empty
      display name issues one add-contact call and arms no listener. */
  lemma EmptyDisplayNameScenario(acc: Account, root: Group)
    requires acc.protocolProvider.Some?
    ensures OnAddClicked(Some(acc), root, "bob@x.com", Some(""))
         == Submitted([AddContactRequest(acc.protocolProvider.value, root, "bob@x.com"), Finish])
  {
  }
}
