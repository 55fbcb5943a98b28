# Add-contact screen of Jitsi for Android, as pure functions

`AddContactActivity` lets a user pick an account and a contact group, type a
contact address and an optional display name, and press "add". Around the
Android widgets it makes four decisions, which this project states as pure
Dafny functions and methods over immutable data and proves properties of:

- **Account spinner** (`AccountSelector`, from `initAccountSpinner`): the
  offered accounts are those of the registered providers that expose a
  presence operation set, in discovery order. They are counted from 1, and
  the last preferred one sets the selection. A single account is always
  selected at index 0. Otherwise the selection is that 1-based number, or -1
  when no account is preferred. The 1-based count against a 0-based spinner
  index is kept as written.
- **Group spinner** (`GroupSelector`, from `initContactGroupSpinner` and
  `MContactGroupAdapter.getView`): the root group followed by its direct
  subgroups only. The root row is labelled "no group"; every other row shows
  its group name.
- **Add button** (`AddContact`, from `onAddClicked`): with no selected account,
  or an account without a registered provider, the click does nothing.
  Otherwise it registers a rename listener when the display name is non-null
  and non-empty. Then it issues exactly one add-contact call with (provider,
  selected group, address) and closes the screen. The effects are a trace of
  `Action` values. `Run` replays the trace against a `Session` that records
  what the collaborators saw.
- **Rename listener** (`RenameListener`, from `addRenameListener`):
  - a meta-contact-added event asks for a rename when the new meta contact
    holds a contact with the captured address and provider;
  - a proto-contact-added event asks for a rename only when a meta contact was
    captured and it equals the event's new parent. The screen always captures
    none, so this path never fires from here.
  - The listener is never removed. A matching event delivered twice asks for
    two renames.

`ContactTypes` holds the data model: providers, account identities, spinner
accounts, protocol contacts, meta contacts and groups. Java references that
may be null are `Option` values.

The code never removes the listener, so nothing limits it to one firing:
`RepeatedEventRenamesTwice` shows that two matching events give two renames.
The two abort paths log and return; the model reports them as an `Aborted`
outcome with no actions.

## Model

| member | source | states |
|---|---|---|
| ContactTypes.GetContact | src/org/jitsi/android/gui/contactlist/AddContactActivity.java:213-214 | the meta contact yields a contact exactly when it holds one with the given address and provider, and the contact returned is that one |
| AccountSelector.EligibleAccounts | src/org/jitsi/android/gui/contactlist/AddContactActivity.java:85-96 | an account is offered exactly when some discovered provider with a presence operation set carries it; no more accounts than providers |
| AccountSelector.EligibleAppend | src/org/jitsi/android/gui/contactlist/AddContactActivity.java:89-96 | discovering one more provider appends its account exactly when it has a presence operation set; a skipped provider leaves the list unchanged |
| AccountSelector.EligiblePrefix | src/org/jitsi/android/gui/contactlist/AddContactActivity.java:92-97 | after any prefix of the providers, the counter equals the number of providers with presence so far; skipped providers do not advance it |
| AccountSelector.EligiblePosition | src/org/jitsi/android/gui/contactlist/AddContactActivity.java:85-97 | order is preserved: an eligible provider's account sits at the position given by the eligible providers before it |
| AccountSelector.PreferredNumber | src/org/jitsi/android/gui/contactlist/AddContactActivity.java:82-102 | the counter value left in selectedIdx is -1 exactly when no account is preferred, and otherwise k where the last preferred account is at 0-based position k-1 |
| AccountSelector.SpinnerSelection | src/org/jitsi/android/gui/contactlist/AddContactActivity.java:112-117 | one account gives selection 0 whatever its flag; zero or several give -1 exactly when none is preferred, else the 1-based number of the last preferred one |
| AccountSelector.InitAccountSpinner | src/org/jitsi/android/gui/contactlist/AddContactActivity.java:72-118 | the loop builds exactly the eligible account list and a selection with the properties above |
| AccountSelector.SelectionDetermined | src/org/jitsi/android/gui/contactlist/AddContactActivity.java:97-117 | those properties pin the selection down uniquely, so the loop's selection equals the reference selection |
| AccountSelector.SingleAccountScenario | src/org/jitsi/android/gui/contactlist/AddContactActivity.java:114-115 | a lone "Work" account is selected at 0 whether preferred or not |
| AccountSelector.TwoAccountScenario | src/org/jitsi/android/gui/contactlist/AddContactActivity.java:97-117 | "Work" then preferred "Home" selects 2; with neither preferred the selection is -1 |
| GroupSelector.InitGroupList | src/org/jitsi/android/gui/contactlist/AddContactActivity.java:130-137 | the list is the root, then the root's direct subgroups in order, so its length is one more than the subgroup count, and it holds nothing else |
| GroupSelector.GroupLabel | src/org/jitsi/android/gui/contactlist/AddContactActivity.java:285-294 | a row reads "no group" exactly when its group equals the root; otherwise it shows the group's name |
| GroupSelector.FlatListLabels | src/org/jitsi/android/gui/contactlist/AddContactActivity.java:285-294 | in the flattened list only the first row reads "no group"; every subgroup row shows its own name |
| RenameListener.OnEvent | src/org/jitsi/android/gui/contactlist/AddContactActivity.java:210-229 | a rename is asked exactly when a new meta contact holds the (address, provider) contact, or when a captured meta contact equals the new parent; the target is that meta contact and the name is the captured display name |
| RenameListener.Deliver | src/org/jitsi/android/gui/contactlist/AddContactActivity.java:207-230 | dispatching an event to the registered listeners asks for at most one rename per listener, each coming from a listener that fires on it, and every listener that fires contributes its rename |
| RenameListener.DeliverAll | src/org/jitsi/android/gui/contactlist/AddContactActivity.java:207-230 | a sequence of events asks for at most one rename per listener per event; every rename comes from some listener firing on some event, and every listener firing on any of the events contributes its rename |
| RenameListener.DeliverIgnoresNonMatching | src/org/jitsi/android/gui/contactlist/AddContactActivity.java:211-229 | an event that concerns no registered listener asks for no rename |
| RenameListener.DeliverConcat | src/org/jitsi/android/gui/contactlist/AddContactActivity.java:207-230 | listeners from independent clicks react independently: renames for the union are the renames for each part, in order |
| RenameListener.DeliverAllConcat | src/org/jitsi/android/gui/contactlist/AddContactActivity.java:207-230 | the renames of two batches of events are the renames of the first batch followed by those of the second |
| RenameListener.RepeatedEventRenamesTwice | src/org/jitsi/android/gui/contactlist/AddContactActivity.java:207-230 | the listener is never removed: a matching event delivered twice asks for the same rename twice |
| AddContact.OnAddClicked | src/org/jitsi/android/gui/contactlist/AddContactActivity.java:149-189 | no account aborts with NoAccountSelected and no provider aborts with ProviderUnavailable, both with no action; otherwise exactly one add-contact call with (provider, group, address), a listener with no captured meta contact registered only for a non-empty display name and never after the add, the add and then the close as the last two actions, and no other action |
| AddContact.Run | src/org/jitsi/android/gui/contactlist/AddContactActivity.java:175-188 | replaying actions adds exactly the registered listeners and the add-contact calls to what the collaborators saw, in order, and the screen ends closed exactly when it was closed before or a close was issued |
| AddContact.ArmedBeforeAdd | src/org/jitsi/android/gui/contactlist/AddContactActivity.java:175-187 | with a display name, the listener is already registered, no add is issued and the screen is still open at the moment the add-contact call is made; the screen is closed at the end |
| AddContact.ScreenIgnoresProtoEvents | src/org/jitsi/android/gui/contactlist/AddContactActivity.java:177-180 | every listener this screen registers captures no meta contact, so no proto-contact-added event makes it rename |
| AddContact.RenameAfterAdd | src/org/jitsi/android/gui/contactlist/AddContactActivity.java:173-218 | after a click, a new meta contact asks for exactly one rename to the typed name when a display name was given and it holds the added contact, and none otherwise |
| AddContact.EmptyDisplayNameScenario | src/org/jitsi/android/gui/contactlist/AddContactActivity.java:173-188 | "bob@x.com" into the root group with an empty display name issues the add and the close, and registers no listener |

## Left out

- Android views, spinners, layouts, inflation and titles are not modelled. `finish()` is the `Finish` action.
- Logging of the two abort reasons is left out. Only the `AddError` tag remains.
- Service lookup is left out: `AccountUtils.getRegisteredProviders` and the OSGi contact list service are ambient singletons. The providers, the root group, the selected account and group, and the two text fields are inputs.
- `AccountsListAdapter` is not part of this model. It turns account identities into spinner `Account` items. It also decides whether spinner index k shows the k-th or the (k+1)-th account, and what index -1 selects. `OnAddClicked` takes the selected item as an input.
- `ContactListUtils.addContact` and `renameMetaContact` are foreign calls that do network and storage work. They are emitted as `AddContactRequest` and `RenameRequest` values.
- The thread started by `renameContact` is concurrency; a fired listener only emits a `RenameRequest`.
- The implementation of `MetaContact.getContact` is outside the modelled file; `GetContact` assumes it matches on equal address and equal provider.
- Java `equals` on groups and meta contacts is modelled as structural equality of their snapshots.
- The order in which the contact list service notifies listeners is not part of this model. `Deliver` assumes registration order.
- The contact address field is modelled as a non-null string; the source passes it on without a check.
- Every text field value is an arbitrary string; no trimming or validation is modelled because the source does none.
- No at-most-once firing or unsubscription is stated, because the source has neither.
