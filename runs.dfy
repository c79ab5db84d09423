/** Runs of consecutive elements that share a key, as a loop that keeps one open
    run builds them: an element whose key is the open run's key joins that run,
    any other element opens a new run. The blog's archive groups its posts this
    way by year. */
module Runs {
  /** A run: the key its members share, and the members in order. */
  datatype Run<T> = Run(key: nat, members: seq<T>)

  /** One step of the loop: `x`, whose key is `key`, joins the open run when the
      keys agree and opens a new run otherwise. */
  function AddToRuns<T>(runs: seq<Run<T>>, key: nat, x: T): (r: seq<Run<T>>)
    ensures r != [] && r[|r| - 1].key == key
  {
    if runs != [] && runs[|runs| - 1].key == key then
      runs[..|runs| - 1] + [Run(key, runs[|runs| - 1].members + [x])]
    else runs + [Run(key, [x])]
  }

  /** The runs the loop builds over `s`. */
  function RunsOf<T>(s: seq<T>, key: T -> nat): (r: seq<Run<T>>)
    ensures r == [] <==> s == []
  {
    if s == [] then [] else AddToRuns(RunsOf(s[..|s| - 1], key), key(s[|s| - 1]), s[|s| - 1])
  }

  lemma RunsOfSnoc<T>(init: seq<T>, x: T, key: T -> nat)
    ensures RunsOf(init + [x], key) == AddToRuns(RunsOf(init, key), key(x), x)
  {
    assert (init + [x])[..|init|] == init;
  }

  /** The members of all runs, one run after another. */
  function Flatten<T>(runs: seq<Run<T>>): seq<T> {
    if runs == [] then [] else Flatten(runs[..|runs| - 1]) + runs[|runs| - 1].members
  }

  lemma FlattenSnoc<T>(runs: seq<Run<T>>, y: Run<T>)
    ensures Flatten(runs + [y]) == Flatten(runs) + y.members
  {
    assert (runs + [y])[..|runs|] == runs;
  }

  /** A step adds its element after the members of the runs. */
  lemma AddToRunsFlatten<T>(runs: seq<Run<T>>, key: nat, x: T)
    ensures Flatten(AddToRuns(runs, key, x)) == Flatten(runs) + [x]
  {
    if runs != [] && runs[|runs| - 1].key == key {
      var front := runs[..|runs| - 1];
      var last := runs[|runs| - 1];
      assert runs == front + [last];
      FlattenSnoc(front, last);
      FlattenSnoc(front, Run(key, last.members + [x]));
    } else {
      FlattenSnoc(runs, Run(key, [x]));
    }
  }

  /** The runs lose no element and move none: one after another, they are the
      elements in the order they were given. */
  lemma {:induction false} RunsOfFlatten<T>(s: seq<T>, key: T -> nat)
    ensures Flatten(RunsOf(s, key)) == s
    decreases |s|, 1
  {
    if s != [] {
      var init, x := s[..|s| - 1], s[|s| - 1];
      assert s == init + [x];
      RunsOfFlattenSnoc(init, x, key);
    }
  }

  lemma {:induction false} RunsOfFlattenSnoc<T>(init: seq<T>, x: T, key: T -> nat)
    ensures Flatten(RunsOf(init + [x], key)) == init + [x]
    decreases |init| + 1, 0
  {
    RunsOfFlatten(init, key);
    AddToRunsFlatten(RunsOf(init, key), key(x), x);
    RunsOfSnoc(init, x, key);
  }

  /** Every run has a member, and every member has its run's key. */
  predicate Keyed<T>(runs: seq<Run<T>>, key: T -> nat) {
    forall k :: 0 <= k < |runs| ==> runs[k].members != [] && AllKeyed(runs[k], key)
  }

  predicate AllKeyed<T>(run: Run<T>, key: T -> nat) {
    forall j :: 0 <= j < |run.members| ==> key(run.members[j]) == run.key
  }

  lemma AddToRunsKeyed<T>(runs: seq<Run<T>>, x: T, key: T -> nat)
    requires Keyed(runs, key)
    ensures Keyed(AddToRuns(runs, key(x), x), key)
  {
    var r := AddToRuns(runs, key(x), x);
    assert forall k :: 0 <= k < |r| - 1 ==> r[k] == runs[k];
    if runs != [] && runs[|runs| - 1].key == key(x) {
      var last := runs[|runs| - 1];
      assert AllKeyed(last, key);
      assert r[|r| - 1] == Run(last.key, last.members + [x]);
    }
    assert AllKeyed(r[|r| - 1], key);
  }

  /** Every element sits in a run of its own key. */
  lemma {:induction false} RunsOfKeyed<T>(s: seq<T>, key: T -> nat)
    ensures Keyed(RunsOf(s, key), key)
    decreases |s|, 1
  {
    if s != [] {
      var init, x := s[..|s| - 1], s[|s| - 1];
      assert s == init + [x];
      RunsOfKeyedSnoc(init, x, key);
    }
  }

  lemma {:induction false} RunsOfKeyedSnoc<T>(init: seq<T>, x: T, key: T -> nat)
    ensures Keyed(RunsOf(init + [x], key), key)
    decreases |init| + 1, 0
  {
    RunsOfKeyed(init, key);
    AddToRunsKeyed(RunsOf(init, key), x, key);
    RunsOfSnoc(init, x, key);
  }

  /** The keys of the runs strictly decrease. */
  predicate KeysDecreasing<T>(runs: seq<Run<T>>) {
    forall k, j :: 0 <= k < j < |runs| ==> runs[k].key > runs[j].key
  }

  /** No element has a larger key than one before it. */
  predicate NonIncreasing<T>(s: seq<T>, key: T -> nat) {
    forall i, j :: 0 <= i < j < |s| ==> key(s[i]) >= key(s[j])
  }

  lemma AddToRunsDecreasing<T>(runs: seq<Run<T>>, key: nat, x: T)
    requires KeysDecreasing(runs)
    requires runs != [] ==> runs[|runs| - 1].key >= key
    ensures KeysDecreasing(AddToRuns(runs, key, x))
  {
    var r := AddToRuns(runs, key, x);
    assert forall k :: 0 <= k < |r| - 1 ==> r[k] == runs[k];
  }

  /** The open run has the key of the last element. */
  lemma RunsOfLast<T>(s: seq<T>, key: T -> nat)
    requires s != []
    ensures RunsOf(s, key)[|RunsOf(s, key)| - 1].key == key(s[|s| - 1])
  {
  }

  /** Over elements whose keys never increase, the keys of the runs strictly
      decrease: each key has exactly one run. */
  lemma {:induction false} RunsOfDecreasing<T>(s: seq<T>, key: T -> nat)
    requires NonIncreasing(s, key)
    ensures KeysDecreasing(RunsOf(s, key))
    decreases |s|, 1
  {
    if s != [] {
      var init, x := s[..|s| - 1], s[|s| - 1];
      assert s == init + [x];
      RunsOfDecreasingSnoc(init, x, key);
    }
  }

  lemma {:induction false} RunsOfDecreasingSnoc<T>(init: seq<T>, x: T, key: T -> nat)
    requires NonIncreasing(init + [x], key)
    ensures KeysDecreasing(RunsOf(init + [x], key))
    decreases |init| + 1, 0
  {
    var s := init + [x];
    assert forall i :: 0 <= i < |init| ==> s[i] == init[i];
    assert NonIncreasing(init, key);
    RunsOfDecreasing(init, key);
    if init != [] {
      RunsOfLast(init, key);
      assert key(s[|init| - 1]) >= key(s[|init|]);
    }
    AddToRunsDecreasing(RunsOf(init, key), key(x), x);
    RunsOfSnoc(init, x, key);
  }
}
