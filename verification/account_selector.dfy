/** The "select account" spinner: which registered providers are offered and
    which spinner index is selected by default (initAccountSpinner). */
module AccountSelector {
  import opened ContactTypes

  /** The accounts of the providers exposing a presence operation set, in
      discovery order; the reference definition of the spinner's contents. */
  function EligibleAccounts(providers: seq<Provider>): (r: seq<AccountId>)
    ensures |r| <= |providers|
    ensures forall a :: a in r <==>
      exists i :: 0 <= i < |providers| && providers[i].hasPresence && providers[i].accountId == a
  {
    if |providers| == 0 then []
    else
      var tail := EligibleAccounts(providers[1..]);
      assert forall i :: 1 <= i < |providers| ==> providers[i] == providers[1..][i - 1];
      if providers[0].hasPresence then [providers[0].accountId] + tail else tail
  }

  /** Number of eligible providers strictly before position `i`: the
      0-based position the provider at `i` takes in the spinner. */
  function EligibleBefore(providers: seq<Provider>, i: nat): (n: nat)
    requires i <= |providers|
    ensures n <= i
  {
    if i == 0 then 0
    else EligibleBefore(providers, i - 1) + (if providers[i - 1].hasPresence then 1 else 0)
  }

  /** `k` is the 0-based position of the last preferred account. */
  ghost predicate IsLastPreferred(accounts: seq<AccountId>, k: int)
  {
    && 0 <= k < |accounts|
    && accounts[k].preferred
    && forall j :: k < j < |accounts| ==> !accounts[j].preferred
  }

  ghost predicate NonePreferred(accounts: seq<AccountId>)
  {
    forall j :: 0 <= j < |accounts| ==> !accounts[j].preferred
  }

  /** The value `selectedIdx` reaches: the 1-based number of the last
      preferred account, or -1 when no account is preferred. */
  function PreferredNumber(accounts: seq<AccountId>): (k: int)
    ensures k == -1 || 1 <= k <= |accounts|
    ensures k == -1 <==> NonePreferred(accounts)
    ensures k != -1 ==> IsLastPreferred(accounts, k - 1)
  {
    if |accounts| == 0 then -1
    else if accounts[|accounts| - 1].preferred then |accounts|
    else PreferredNumber(accounts[..|accounts| - 1])
  }

  /** The index handed to setSelection: 0 for a single account, the
      1-based preferred number otherwise. */
  function SpinnerSelection(accounts: seq<AccountId>): (s: int)
    ensures |accounts| == 1 ==> s == 0
    ensures |accounts| != 1 ==> (s == -1 <==> NonePreferred(accounts))
    ensures |accounts| != 1 && s != -1 ==> IsLastPreferred(accounts, s - 1)
  {
    if |accounts| == 1 then 0 else PreferredNumber(accounts)
  }

  /** The loop of initAccountSpinner: keeps the providers with a presence
      operation set, counts them from 1 and lets the last preferred one set
      the selection; a single account is always selected at 0. */
  method InitAccountSpinner(providers: seq<Provider>) returns (accounts: seq<AccountId>, selection: int)
    ensures accounts == EligibleAccounts(providers)
    ensures |accounts| == 1 ==> selection == 0
    ensures |accounts| != 1 ==> (selection == -1 <==> NonePreferred(accounts))
    ensures |accounts| != 1 && selection != -1 ==> IsLastPreferred(accounts, selection - 1)
  {
    accounts := [];
    var selectedIdx := -1;
    var idx := 0;
    var i := 0;
    while i < |providers|
      invariant 0 <= i <= |providers|
      invariant EligibleAccounts(providers) == accounts + EligibleAccounts(providers[i..])
      invariant idx == |accounts|
      invariant selectedIdx == -1 <==> NonePreferred(accounts)
      invariant selectedIdx != -1 ==> 1 <= selectedIdx <= idx && IsLastPreferred(accounts, selectedIdx - 1)
    {
      var provider := providers[i];
      assert providers[i..] == [provider] + providers[i + 1..];
      i := i + 1;
      if !provider.hasPresence {
        continue;
      }
      var account := provider.accountId;
      var before := accounts;
      accounts := accounts + [account];
      assert forall j :: 0 <= j < |before| ==> accounts[j] == before[j];
      assert accounts[idx] == account;
      idx := idx + 1;
      if account.preferred {
        selectedIdx := idx;
      }
    }
    assert providers[i..] == [];
    if |accounts| == 1 {
      selection := 0;
    } else {
      selection := selectedIdx;
    }
  }

  /** The loop's selection is the reference selection. */
  lemma SelectionDetermined(accounts: seq<AccountId>, selection: int)
    requires |accounts| == 1 ==> selection == 0
    requires |accounts| != 1 ==> (selection == -1 <==> NonePreferred(accounts))
    requires |accounts| != 1 && selection != -1 ==> IsLastPreferred(accounts, selection - 1)
    ensures selection == SpinnerSelection(accounts)
  {
  }

  /** Discovering one more provider appends its account exactly when it
      has a presence operation set; a skipped provider changes nothing. */
  lemma {:induction false} EligibleAppend(providers: seq<Provider>, p: Provider)
    ensures EligibleAccounts(providers + [p])
         == EligibleAccounts(providers) + (if p.hasPresence then [p.accountId] else [])
  {
    if |providers| == 0 {
      assert providers + [p] == [p];
      assert [p][1..] == [];
    } else {
      assert (providers + [p])[1..] == providers[1..] + [p];
      EligibleAppend(providers[1..], p);
    }
  }

  /** The eligible accounts of a prefix are a prefix of the eligible accounts. */
  lemma {:induction false} EligiblePrefix(providers: seq<Provider>, i: nat)
    requires i <= |providers|
    ensures |EligibleAccounts(providers[..i])| == EligibleBefore(providers, i)
  {
    if i > 0 {
      EligiblePrefix(providers, i - 1);
      assert providers[..i] == providers[..i - 1] + [providers[i - 1]];
      EligibleAppend(providers[..i - 1], providers[i - 1]);
    }
  }

  /** Order is preserved: an eligible provider at position `i` shows its
      account at spinner position "eligible providers before `i`". */
  lemma {:induction false} EligiblePosition(providers: seq<Provider>, i: nat)
    requires i < |providers| && providers[i].hasPresence
    ensures EligibleBefore(providers, i) < |EligibleAccounts(providers)|
    ensures EligibleAccounts(providers)[EligibleBefore(providers, i)] == providers[i].accountId
  {
    EligiblePrefix(providers, i);
    EligibleSplit(providers, i);
    assert providers[..i + 1] == providers[..i] + [providers[i]];
    EligibleAppend(providers[..i], providers[i]);
  }

  /** Splitting the discovery sequence splits the eligible accounts. */
  lemma {:induction false} EligibleSplit(providers: seq<Provider>, i: nat)
    requires i < |providers|
    ensures EligibleAccounts(providers)
         == EligibleAccounts(providers[..i + 1]) + EligibleAccounts(providers[i + 1..])
  {
    if i == 0 {
      assert providers[..1] == [providers[0]];
      assert [providers[0]][1..] == [];
      assert providers[1..] == providers[i + 1..];
    } else {
      EligibleSplit(providers[1..], i - 1);
      assert providers[1..][..i] == providers[..i + 1][1..];
      assert providers[1..][i..] == providers[i + 1..];
    }
  }

  /** One eligible account is selected at 0 whatever its preferred flag. */
  lemma SingleAccountScenario()
    ensures SpinnerSelection([AccountId("Work", true)]) == 0
    ensures SpinnerSelection([AccountId("Work", false)]) == 0
  {
  }

  /** Two accounts with the second preferred select number 2; none
      preferred leaves the selection at -1. */
  lemma TwoAccountScenario()
    ensures SpinnerSelection([AccountId("Work", false), AccountId("Home", true)]) == 2
    ensures SpinnerSelection([AccountId("Work", false), AccountId("Home", false)]) == -1
  {
  }
}
