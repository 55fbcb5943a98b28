/** The "select group" spinner: the root group followed by its direct
    subgroups (initContactGroupSpinner), and the label each row shows
    (MContactGroupAdapter.getView). */
module GroupSelector {
  import opened ContactTypes

  /** What a spinner row displays: the localized "no group" string for the
      root, the group's name for every other group. */
  datatype Label = NoGroupLabel | NameLabel(name: string)

  /** The list the spinner is built from: the root first, then each direct
      subgroup in iteration order; deeper subgroups are not visited. */
  method InitGroupList(root: Group) returns (merge: seq<Group>)
    ensures |merge| == 1 + |root.subgroups|
    ensures merge[0] == root
    ensures forall i :: 0 <= i < |root.subgroups| ==> merge[i + 1] == root.subgroups[i]
    ensures forall g :: g in merge <==> g == root || g in root.subgroups
  {
    merge := [root];
    var n := 0;
    while n < |root.subgroups|
      invariant 0 <= n <= |root.subgroups|
      invariant |merge| == 1 + n
      invariant merge[0] == root
      invariant forall i :: 0 <= i < n ==> merge[i + 1] == root.subgroups[i]
    {
      merge := merge + [root.subgroups[n]];
      n := n + 1;
    }
    assert merge[1..] == root.subgroups;
    assert merge == [root] + root.subgroups;
  }

  /** The row label of `item` when the contact list's root is `root`. */
  function GroupLabel(item: Group, root: Group): (l: Label)
    ensures l == NoGroupLabel <==> item == root
    ensures l.NameLabel? ==> l.name == item.groupName
  {
    if item == root then NoGroupLabel else NameLabel(item.groupName)
  }

  /** A direct subgroup is never the group that holds it. */
  lemma SubgroupIsNotParent(root: Group, i: nat)
    requires i < |root.subgroups|
    ensures root.subgroups[i] != root
  {
  }

  /** In the flattened list exactly the first row reads "no group"; every
      other row shows its subgroup's own name. */
  lemma FlatListLabels(root: Group, merge: seq<Group>)
    requires |merge| == 1 + |root.subgroups|
    requires merge[0] == root
    requires forall i :: 0 <= i < |root.subgroups| ==> merge[i + 1] == root.subgroups[i]
    ensures GroupLabel(merge[0], root) == NoGroupLabel
    ensures forall i :: 1 <= i < |merge| ==> GroupLabel(merge[i], root) == NameLabel(merge[i].groupName)
  {
    forall i | 1 <= i < |merge|
      ensures GroupLabel(merge[i], root) == NameLabel(merge[i].groupName)
    {
      SubgroupIsNotParent(root, i - 1);
    }
  }
}
