/**
 * The failure report of a batch: an insertion-ordered dict from error text
 * to the basenames that failed with it, grown by `setdefault(err, []).append(b)`.
 */
module FailureGroups {

  /** The dict as its keys in insertion order and the list stored under each. */
  datatype Groups = Groups(keys: seq<string>, lists: map<string, seq<string>>)

  predicate Distinct(s: seq<string>) {
    forall i, j :: 0 <= i < j < |s| ==> s[i] != s[j]
  }

  predicate Valid(g: Groups) {
    Distinct(g.keys) && g.lists.Keys == set k | k in g.keys
  }

  function Empty(): (g: Groups)
    ensures Valid(g)
  {
    Groups([], map[])
  }

  /** `failed.setdefault(err, []).append(b)`: a new key goes last. */
  function SetDefaultAppend(g: Groups, err: string, b: string): (r: Groups)
    requires Valid(g)
    ensures Valid(r)
    ensures err in r.lists && r.lists[err] == (if err in g.lists then g.lists[err] else []) + [b]
    ensures forall k :: k in g.lists && k != err ==> k in r.lists && r.lists[k] == g.lists[k]
    ensures r.keys == if err in g.lists then g.keys else g.keys + [err]
  {
    if err in g.lists then Groups(g.keys, g.lists[err := g.lists[err] + [b]])
    else Groups(g.keys + [err], g.lists[err := [b]])
  }

  /** `sum(len(v) for v in failed.values())`. */
  function ListSum(keys: seq<string>, lists: map<string, seq<string>>): nat
    decreases |keys|
  {
    if keys == [] then 0
    else
      var k := keys[|keys| - 1];
      ListSum(keys[..|keys| - 1], lists) + (if k in lists then |lists[k]| else 0)
  }

  function TotalFailed(g: Groups): nat {
    ListSum(g.keys, g.lists)
  }

  /** `{b for files in failed.values() for b in files}`. */
  function AllNames(g: Groups): set<string> {
    set k, b | k in g.lists && b in g.lists[k] :: b
  }

  lemma {:induction false} ListSumFrame(keys: seq<string>, l1: map<string, seq<string>>, l2: map<string, seq<string>>)
    requires forall k :: k in keys ==> (k in l1 <==> k in l2) && (k in l1 ==> |l1[k]| == |l2[k]|)
    ensures ListSum(keys, l1) == ListSum(keys, l2)
    decreases |keys|
  {
    if keys != [] {
      var init := keys[..|keys| - 1];
      assert forall k :: k in init ==> k in keys;
      ListSumFrame(init, l1, l2);
    }
  }

  lemma {:induction false} ListSumGrow(keys: seq<string>, lists: map<string, seq<string>>, err: string, b: string)
    requires Distinct(keys) && err in keys && err in lists
    ensures ListSum(keys, lists[err := lists[err] + [b]]) == ListSum(keys, lists) + 1
    decreases |keys|
  {
    var init := keys[..|keys| - 1];
    var last := keys[|keys| - 1];
    var l2 := lists[err := lists[err] + [b]];
    if last == err {
      assert err !in init;
      ListSumFrame(init, lists, l2);
    } else {
      assert err in init by {
        var i :| 0 <= i < |keys| && keys[i] == err;
        assert i < |keys| - 1;
        assert init[i] == err;
      }
      ListSumGrow(init, lists, err, b);
    }
  }

  /** Every `setdefault(...).append` adds exactly one basename to the total. */
  lemma TotalAfterAppend(g: Groups, err: string, b: string)
    requires Valid(g)
    ensures TotalFailed(SetDefaultAppend(g, err, b)) == TotalFailed(g) + 1
  {
    var r := SetDefaultAppend(g, err, b);
    if err in g.lists {
      ListSumGrow(g.keys, g.lists, err, b);
    } else {
      assert r.keys[..|r.keys| - 1] == g.keys;
      ListSumFrame(g.keys, g.lists, r.lists);
    }
  }

  /** The dict object the batch loop mutates. */
  class FailureReport {
    var keys: seq<string>
    var lists: map<string, seq<string>>

    function View(): Groups
      reads this
    {
      Groups(keys, lists)
    }

    constructor ()
      ensures View() == Empty()
    {
      keys := [];
      lists := map[];
    }

    /** `failed.setdefault(err, []).append(b)`. */
    method Add(err: string, b: string)
      requires Valid(View())
      modifies this
      ensures View() == SetDefaultAppend(old(View()), err, b)
    {
      if err in lists {
        lists := lists[err := lists[err] + [b]];
      } else {
        keys := keys + [err];
        lists := lists[err := [b]];
      }
    }
  }
}
