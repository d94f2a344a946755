/**
 * The counter configuration dialog: local edits of the counter list (add, rename,
 * remove) and the save that inserts the unsaved counters and updates the saved ones,
 * stopping at the first store error.
 */
module CounterConfig {
  import opened Wrappers
  import opened Text
  import opened Sequences

  /** A counter of the dialog; `id` is absent until the counter has been stored. */
  datatype Counter = Counter(id: Option<int>, name: string, organizationId: Option<string>, active: Option<bool>)

  /** `c.id` is truthy: present and not 0. */
  predicate HasId(c: Counter) {
    c.id.Some? && c.id.value != 0
  }

  const NamePrefix := "Gabinete "

  /** `handleAddCounter`: an unsaved, active counter named after the new list length. */
  function HandleAddCounter(counters: seq<Counter>, organizationId: Option<string>): (r: seq<Counter>)
    ensures |r| == |counters| + 1 && r[..|counters|] == counters
    ensures var c := r[|counters|];
      && c.id == None && c.active == Some(true) && c.organizationId == organizationId
      && c.name == DefaultName(|counters| + 1)
  {
    counters + [Counter(None, DefaultName(|counters| + 1), organizationId, Some(true))]
  }

  /** "Gabinete " followed by the number in decimal. */
  function DefaultName(n: nat): (name: string)
    ensures |name| > |NamePrefix| && name[..|NamePrefix|] == NamePrefix
    ensures name[|NamePrefix|..] == NatToString(n)
    ensures var digits := name[|NamePrefix|..];
      (forall i :: 0 <= i < |digits| ==> IsDigit(digits[i])) && ParseDigits(digits) == n
  {
    ParseNatToString(n);
    var name := NamePrefix + IntToString(n);
    assert name[|NamePrefix|..] == NatToString(n);
    name
  }

  /** `handleUpdateCounter`: every counter whose id equals `id` (both may be absent) is renamed. */
  function HandleUpdateCounter(counters: seq<Counter>, id: Option<int>, name: string): (r: seq<Counter>)
    ensures |r| == |counters|
    ensures forall i :: 0 <= i < |r| ==>
      r[i] == if counters[i].id == id then counters[i].(name := name) else counters[i]
  {
    seq(|counters|, i requires 0 <= i < |counters| =>
      if counters[i].id == id then counters[i].(name := name) else counters[i])
  }

  /**
   * Renaming from the input of an unsaved counter passes an absent id, which matches
   * every unsaved counter: all of them get the new name, the saved ones keep theirs.
   */
  lemma RenameUnsavedRenamesAllUnsaved(counters: seq<Counter>, name: string)
    ensures var r := HandleUpdateCounter(counters, None, name);
      forall i :: 0 <= i < |r| ==>
        && (counters[i].id == None ==> r[i].name == name)
        && (counters[i].id != None ==> r[i] == counters[i])
  {
  }

  /** The list filter `counter.id !== counterId`. */
  function RemoveById(counters: seq<Counter>, counterId: int): (r: seq<Counter>)
    ensures forall c: Counter :: c in r <==> c in counters && c.id != Some(counterId)
    ensures forall c: Counter :: c.id != Some(counterId) ==> multiset(r)[c] == multiset(counters)[c]
    ensures IsSubsequence(r, counters)
    decreases |counters|
  {
    if counters == [] then []
    else
      var rest := RemoveById(counters[1..], counterId);
      assert counters == [counters[0]] + counters[1..];
      if counters[0].id != Some(counterId) then [counters[0]] + rest else rest
  }

  /**
   * `handleRemoveCounter`: without an organisation, or when deactivating the stored row
   * fails, the list is left as it is; otherwise the counters with that id are dropped.
   */
  function HandleRemoveCounter(counters: seq<Counter>, counterId: int,
                               hasOrganization: bool, updateFails: bool): (r: seq<Counter>)
    ensures !hasOrganization ==> r == counters
    ensures counterId != 0 && updateFails ==> r == counters
    ensures hasOrganization && (counterId == 0 || !updateFails) ==> r == RemoveById(counters, counterId)
  {
    if !hasOrganization then counters
    else if counterId != 0 && updateFails then counters
    else RemoveById(counters, counterId)
  }

  /** The trash button of an unsaved counter: that one element goes, compared by reference. */
  function RemoveUnsavedAt(counters: seq<Counter>, k: nat): (r: seq<Counter>)
    requires k < |counters|
    ensures |r| == |counters| - 1
    ensures multiset(r) + multiset{counters[k]} == multiset(counters)
    ensures forall i :: 0 <= i < |r| ==> r[i] == counters[if i < k then i else i + 1]
  {
    assert counters == counters[..k] + [counters[k]] + counters[k + 1..];
    counters[..k] + counters[k + 1..]
  }

  /** The counters `handleSave` inserts: those without a truthy id, in list order. */
  function Unsaved(counters: seq<Counter>): (r: seq<Counter>)
    ensures forall c :: c in r ==> !HasId(c)
    ensures forall c: Counter :: !HasId(c) ==> multiset(r)[c] == multiset(counters)[c]
    ensures IsSubsequence(r, counters)
    decreases |counters|
  {
    if counters == [] then []
    else
      var rest := Unsaved(counters[1..]);
      assert counters == [counters[0]] + counters[1..];
      if HasId(counters[0]) then rest else [counters[0]] + rest
  }

  /** The counters `handleSave` updates: those with a truthy id, in list order. */
  function SavedOnes(counters: seq<Counter>): (r: seq<Counter>)
    ensures forall c :: c in r ==> HasId(c)
    ensures forall c: Counter :: HasId(c) ==> multiset(r)[c] == multiset(counters)[c]
    ensures IsSubsequence(r, counters)
    decreases |counters|
  {
    if counters == [] then []
    else
      var rest := SavedOnes(counters[1..]);
      assert counters == [counters[0]] + counters[1..];
      if HasId(counters[0]) then [counters[0]] + rest else rest
  }

  /** Every counter goes to exactly one of the two loops: the two lists split the list. */
  lemma SaveSplitsCounters(counters: seq<Counter>)
    ensures multiset(Unsaved(counters)) + multiset(SavedOnes(counters)) == multiset(counters)
  {
    var unsaved, saved := Unsaved(counters), SavedOnes(counters);
    forall c: Counter
      ensures (multiset(unsaved) + multiset(saved))[c] == multiset(counters)[c]
    {
      if HasId(c) {
        assert c !in unsaved;
      } else {
        assert c !in saved;
      }
    }
  }

  /** Whether the store reports an error for the `k`-th request (no answer given: success). */
  predicate Fails(errors: seq<bool>, k: nat) {
    k < |errors| && errors[k]
  }

  /** The index of the first of `n` requests that fails, or `n` when none does. */
  function FirstFailure(errors: seq<bool>, n: nat): (k: nat)
    ensures k <= n
    ensures forall j :: 0 <= j < k ==> !Fails(errors, j)
    ensures k < n ==> Fails(errors, k)
    decreases n
  {
    if n == 0 then 0
    else
      var k := FirstFailure(errors, n - 1);
      if k < n - 1 then k else if Fails(errors, n - 1) then n - 1 else n
  }

  /** The first failure is the index before which nothing fails and at which something does. */
  lemma FirstFailureIs(errors: seq<bool>, n: nat, k: nat)
    requires k <= n
    requires forall j :: 0 <= j < k ==> !Fails(errors, j)
    requires k < n ==> Fails(errors, k)
    ensures FirstFailure(errors, n) == k
  {
  }

  /**
   * The requests sent by a loop that stops at its first failure: a prefix of the items in
   * which only the last request may fail, and which is cut short only by a failure.
   */
  function Attempted(items: seq<Counter>, errors: seq<bool>): (r: seq<Counter>)
    ensures |r| <= |items| && r == items[..|r|]
    ensures forall j :: 0 <= j < |r| - 1 ==> !Fails(errors, j)
    ensures |r| < |items| ==> |r| >= 1 && Fails(errors, |r| - 1)
    ensures (forall j :: 0 <= j < |items| ==> !Fails(errors, j)) ==> r == items
  {
    var k := FirstFailure(errors, |items|);
    if k < |items| then items[..k + 1] else items
  }

  /**
   * One loop of `handleSave`: sends a request per item in order and stops at the first
   * error; `sent` is the items whose request went out, `ok` whether none failed.
   */
  method SendUntilError(items: seq<Counter>, errors: seq<bool>) returns (sent: seq<Counter>, ok: bool)
    ensures sent == Attempted(items, errors)
    ensures ok <==> FirstFailure(errors, |items|) == |items|
  {
    sent := [];
    var i := 0;
    while i < |items|
      invariant 0 <= i <= |items|
      invariant forall j :: 0 <= j < i ==> !Fails(errors, j)
      invariant sent == items[..i]
    {
      sent := sent + [items[i]];
      if i < |errors| && errors[i] {
        FirstFailureIs(errors, |items|, i);
        return sent, false;
      }
      i := i + 1;
    }
    FirstFailureIs(errors, |items|, |items|);
    return items, true;
  }

  /**
   * `handleSave`. `insertErrors` and `updateErrors` give the store's answer to each insert
   * and update in turn, `fetchFails` that of the final re-read; `saved` is whether
   * `onSave` and `onClose` are reached.
   */
  method HandleSave(counters: seq<Counter>, hasOrganization: bool,
                    insertErrors: seq<bool>, updateErrors: seq<bool>, fetchFails: bool)
    returns (inserted: seq<Counter>, updated: seq<Counter>, saved: bool)
    ensures !hasOrganization ==> inserted == [] && updated == [] && !saved
    ensures hasOrganization ==> inserted == Attempted(Unsaved(counters), insertErrors)
    ensures var insertsOk := FirstFailure(insertErrors, |Unsaved(counters)|) == |Unsaved(counters)|;
      && (hasOrganization && insertsOk ==> updated == Attempted(SavedOnes(counters), updateErrors))
      && (!insertsOk ==> updated == [])
      && (saved <==> hasOrganization && insertsOk && !fetchFails
                     && FirstFailure(updateErrors, |SavedOnes(counters)|) == |SavedOnes(counters)|)
  {
    inserted, updated, saved := [], [], false;
    if !hasOrganization {
      return;
    }
    var insertsOk, updatesOk;
    inserted, insertsOk := SendUntilError(Unsaved(counters), insertErrors);
    if !insertsOk {
      return;
    }
    updated, updatesOk := SendUntilError(SavedOnes(counters), updateErrors);
    if !updatesOk {
      return;
    }
    saved := !fetchFails;
  }
}
