/** `src/hooks/useProgress.ts`: the set of completed challenge ids and its
    copy in `localStorage` under the key `completed-challenges`.

    A JavaScript `Set` iterates in insertion order and `Array.from` keeps
    that order, so the set is modelled as a list without repetitions, oldest
    first. */
module ProgressStore {
  import opened Text
  import opened JsonArray

  const StorageKey: string := "completed-challenges"

  predicate NoDuplicates(xs: seq<string>)
  {
    forall a, b :: 0 <= a < b < |xs| ==> xs[a] != xs[b]
  }

  /** `new Set(items)`: the first occurrence of each item, in order. */
  function Distinct(items: seq<string>): (r: seq<string>)
    ensures NoDuplicates(r)
    ensures forall x :: x in r <==> x in items
  {
    if items == [] then []
    else
      var d := Distinct(items[..|items| - 1]);
      var x := items[|items| - 1];
      if x in d then d else d + [x]
  }

  /** A list without repetitions is its own set. */
  lemma {:induction false} DistinctKeeps(items: seq<string>)
    requires NoDuplicates(items)
    ensures Distinct(items) == items
  {
    if items != [] {
      var init := items[..|items| - 1];
      DistinctKeeps(init);
      assert items[|items| - 1] !in init;
      assert init + [items[|items| - 1]] == items;
    }
  }

  /** `set.add(id)`: appended unless already present. */
  function Added(xs: seq<string>, id: string): (r: seq<string>)
    ensures id in r
    ensures forall x :: x != id ==> (x in r <==> x in xs)
    ensures id in xs ==> r == xs
    ensures NoDuplicates(xs) ==> NoDuplicates(r)
  {
    if id in xs then xs else xs + [id]
  }

  /** `set.delete(id)`: the other elements stay, in order. */
  function Removed(xs: seq<string>, id: string): (r: seq<string>)
    ensures id !in r
    ensures forall x :: x != id ==> (x in r <==> x in xs)
    ensures id !in xs ==> r == xs
  {
    if xs == [] then []
    else (if xs[0] == id then [] else [xs[0]]) + Removed(xs[1..], id)
  }

  lemma {:induction false} RemovedKeepsDistinct(xs: seq<string>, id: string)
    requires NoDuplicates(xs)
    ensures NoDuplicates(Removed(xs, id))
  {
    if xs != [] {
      RemovedKeepsDistinct(xs[1..], id);
      var rest := Removed(xs[1..], id);
      if xs[0] != id {
        assert xs[0] !in xs[1..];
        assert xs[0] !in rest;
        var r := [xs[0]] + rest;
        forall a, b | 0 <= a < b < |r| ensures r[a] != r[b] {
          assert r[b] == rest[b - 1];
          if a > 0 {
            assert r[a] == rest[a - 1];
          }
        }
      } else {
        assert Removed(xs, id) == rest;
      }
    }
  }

  /** What the mount effect reads: a non-empty saved text that parses. */
  function Saved(stored: Option<string>): Option<seq<string>>
  {
    if stored.Some? && stored.value != "" then Decode(stored.value) else None
  }

  /** What is written after a change is read back by the mount effect as
      the same set, in the same order. */
  lemma SaveThenLoad(xs: seq<string>)
    requires NoDuplicates(xs)
    ensures Saved(Some(Encode(xs))) == Some(xs)
    ensures Distinct(Saved(Some(Encode(xs))).value) == xs
  {
    DecodeEncode(xs);
    DistinctKeeps(xs);
  }

  class Progress {
    /** `completedChallenges`, in insertion order. */
    var completed: seq<string>
    /** `localStorage.getItem('completed-challenges')`. */
    var stored: Option<string>

    predicate Valid()
      reads this
    {
      NoDuplicates(completed)
    }

    /** The completed ids as a set, as the other components see them. */
    function CompletedSet(): (r: set<string>)
      reads this
      ensures forall x :: x in r <==> x in completed
    {
      set x | x in completed
    }

    /** `isCompleted`. */
    predicate IsCompleted(id: string)
      reads this
    {
      id in completed
    }

    /** The hook's initial state, before the mount effect has run. */
    constructor (stored: Option<string>)
      ensures Valid() && completed == [] && this.stored == stored
    {
      completed := [];
      this.stored := stored;
    }

    /** The mount effect: a saved array becomes the set; a missing or empty
        text, or one that does not parse, leaves the set as it was. */
    method LoadSaved()
      requires Valid()
      modifies this
      ensures Valid() && stored == old(stored)
      ensures Saved(stored).Some? ==> completed == Distinct(Saved(stored).value)
      ensures Saved(stored).None? ==> completed == old(completed)
    {
      if stored.Some? && stored.value != "" {
        var parsed := Decode(stored.value);
        if parsed.Some? {
          completed := Distinct(parsed.value);
        }
      }
    }

    /** `markCompleted`: adds the id and saves the new set. */
    method MarkCompleted(id: string)
      requires Valid()
      modifies this
      ensures Valid()
      ensures IsCompleted(id)
      ensures forall x :: x != id ==> (IsCompleted(x) <==> old(IsCompleted(x)))
      ensures old(IsCompleted(id)) ==> completed == old(completed)
      ensures completed == Added(old(completed), id)
      ensures stored == Some(Encode(completed))
    {
      completed := Added(completed, id);
      stored := Some(Encode(completed));
    }

    /** `resetProgress`: empties the set and removes the saved key. */
    method ResetProgress()
      modifies this
      ensures Valid() && completed == [] && stored == None
    {
      completed := [];
      stored := None;
    }

    /** `resetChallenge`: removes the id and saves the new set. */
    method ResetChallenge(id: string)
      requires Valid()
      modifies this
      ensures Valid()
      ensures !IsCompleted(id)
      ensures forall x :: x != id ==> (IsCompleted(x) <==> old(IsCompleted(x)))
      ensures completed == Removed(old(completed), id)
      ensures stored == Some(Encode(completed))
    {
      RemovedKeepsDistinct(completed, id);
      completed := Removed(completed, id);
      stored := Some(Encode(completed));
    }
  }

  /** Resetting a challenge after marking it gives back the set as it was
      when the id was not in it. */
  lemma RemovedAfterAdded(xs: seq<string>, id: string)
    requires id !in xs
    ensures Removed(Added(xs, id), id) == xs
  {
    RemovedAppend(xs, [id], id);
  }

  lemma {:induction false} RemovedAppend(xs: seq<string>, ys: seq<string>, id: string)
    ensures Removed(xs + ys, id) == Removed(xs, id) + Removed(ys, id)
  {
    if xs == [] {
      assert xs + ys == ys;
    } else {
      assert (xs + ys)[1..] == xs[1..] + ys;
      RemovedAppend(xs[1..], ys, id);
    }
  }
}
