/**
 * The settings modal's local counter list: adding a counter with a fresh id, removing
 * the counters with an id, renaming them.
 */
module SettingsModal {
  import opened Text
  import opened Sequences

  datatype Counter = Counter(id: int, name: string)

  const LabelPrefix := "Guichê "

  /** `Math.max(0, ...ids)`. */
  function MaxId(counters: seq<Counter>): (m: int)
    ensures m >= 0
    ensures forall i :: 0 <= i < |counters| ==> counters[i].id <= m
    ensures m == 0 || exists i :: 0 <= i < |counters| && counters[i].id == m
    decreases |counters|
  {
    if counters == [] then 0
    else
      var rest := MaxId(counters[1..]);
      if counters[0].id > rest then counters[0].id else rest
  }

  /**
   * The id `addCounter` gives: the least id that is at least 1 and above every existing id,
   * that is 1 or one more than an existing id.
   */
  function NextId(counters: seq<Counter>): (id: int)
    ensures id >= 1
    ensures forall i :: 0 <= i < |counters| ==> counters[i].id < id
    ensures id == 1 || exists i :: 0 <= i < |counters| && counters[i].id == id - 1
  {
    MaxId(counters) + 1
  }

  /** The default name: "Guichê " and the id padded to two digits. */
  function DefaultName(id: int): (name: string)
    requires id >= 0
    ensures |name| >= |LabelPrefix| + 2 && name[..|LabelPrefix|] == LabelPrefix
    ensures name[|LabelPrefix|..] == PadStart(NatToString(id), 2, '0')
    ensures var digits := name[|LabelPrefix|..];
      (forall i :: 0 <= i < |digits| ==> IsDigit(digits[i])) && ParseDigits(digits) == id
  {
    PaddedNatReadsBack(id, 2);
    var name := LabelPrefix + PadStart(IntToString(id), 2, '0');
    assert name[|LabelPrefix|..] == PadStart(IntToString(id), 2, '0');
    name
  }

  function AddCounter(counters: seq<Counter>): (r: seq<Counter>)
    ensures |r| == |counters| + 1 && r[..|counters|] == counters
    ensures r[|counters|].id == NextId(counters)
    ensures r[|counters|].id >= 1
    ensures forall i :: 0 <= i < |counters| ==> counters[i].id < r[|counters|].id
    ensures r[|counters|].name == DefaultName(r[|counters|].id)
  {
    var id := NextId(counters);
    counters + [Counter(id, DefaultName(id))]
  }

  function RemoveCounter(counters: seq<Counter>, id: int): (r: seq<Counter>)
    ensures forall c: Counter :: c in r <==> c in counters && c.id != id
    ensures forall c: Counter :: c.id != id ==> multiset(r)[c] == multiset(counters)[c]
    ensures IsSubsequence(r, counters)
    decreases |counters|
  {
    if counters == [] then []
    else
      var rest := RemoveCounter(counters[1..], id);
      assert counters == [counters[0]] + counters[1..];
      if counters[0].id != id then [counters[0]] + rest else rest
  }

  function UpdateCounterName(counters: seq<Counter>, id: int, name: string): (r: seq<Counter>)
    ensures |r| == |counters|
    ensures forall i :: 0 <= i < |r| ==> r[i].id == counters[i].id
    ensures forall i :: 0 <= i < |r| ==>
      r[i].name == if counters[i].id == id then name else counters[i].name
  {
    seq(|counters|, i requires 0 <= i < |counters| =>
      if counters[i].id == id then counters[i].(name := name) else counters[i])
  }

  predicate UniqueIds(counters: seq<Counter>) {
    forall i, j :: 0 <= i < j < |counters| ==> counters[i].id != counters[j].id
  }

  lemma AddKeepsIdsUnique(counters: seq<Counter>)
    requires UniqueIds(counters)
    ensures UniqueIds(AddCounter(counters))
  {
  }

  lemma {:induction false} RemoveKeepsIdsUnique(counters: seq<Counter>, id: int)
    requires UniqueIds(counters)
    ensures UniqueIds(RemoveCounter(counters, id))
    decreases |counters|
  {
    if counters != [] {
      var tail := counters[1..];
      assert UniqueIds(tail);
      RemoveKeepsIdsUnique(tail, id);
      var rest := RemoveCounter(tail, id);
      if counters[0].id != id {
        forall c | c in rest ensures c.id != counters[0].id {
          var k :| 0 <= k < |tail| && tail[k] == c;
          assert counters[k + 1] == c;
        }
        ConsKeepsIdsUnique(counters[0], rest);
      }
    }
  }

  lemma ConsKeepsIdsUnique(x: Counter, rest: seq<Counter>)
    requires UniqueIds(rest)
    requires forall c :: c in rest ==> c.id != x.id
    ensures UniqueIds([x] + rest)
  {
    var r := [x] + rest;
    forall i, j | 0 <= i < j < |r| ensures r[i].id != r[j].id {
      assert r[j] == rest[j - 1];
      if i > 0 {
        assert r[i] == rest[i - 1];
      }
    }
  }

  lemma RenameKeepsIdsUnique(counters: seq<Counter>, id: int, name: string)
    requires UniqueIds(counters)
    ensures UniqueIds(UpdateCounterName(counters, id, name))
  {
  }
}
