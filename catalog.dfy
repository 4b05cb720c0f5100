/** The challenge catalog (`src/data/challenges.ts`) and the navigation
    helpers of `src/utils/challengeUtils.ts`.

    The catalog is the parsed JSON object `levels`: level names map to
    objects whose topic names map to arrays of challenges. Key order
    matters (every helper walks the catalog in `Object.keys` order), so a
    level is a name with a list of topics and a topic a name with a list of
    challenges. */
module Challenges {
  import opened Text
  import opened Executor

  datatype Challenge = Challenge(
    id: string,
    title: string,
    description: string,
    hint: string,
    testCases: seq<TestCase>,
    starterCode: Option<string>)

  datatype Topic = Topic(name: string, challenges: seq<Challenge>)

  datatype Level = Level(name: string, topics: seq<Topic>)

  type Catalog = seq<Level>

  // ---------------------------------------------------------------------
  // Flattening

  /** The challenges of a list of topics, topic after topic. */
  function TopicsFlat(topics: seq<Topic>): seq<Challenge>
  {
    if topics == [] then []
    else TopicsFlat(topics[..|topics| - 1]) + topics[|topics| - 1].challenges
  }

  /** Every challenge of the catalog, level after level and topic after
      topic. */
  function Flatten(cat: Catalog): seq<Challenge>
  {
    if cat == [] then []
    else Flatten(cat[..|cat| - 1]) + TopicsFlat(cat[|cat| - 1].topics)
  }

  /** The flattening loop shared by every helper of the file: each topic's
      array is pushed in key order. */
  method GetAllChallenges(cat: Catalog) returns (all: seq<Challenge>)
    ensures all == Flatten(cat)
  {
    all := [];
    for i := 0 to |cat|
      invariant all == Flatten(cat[..i])
    {
      ghost var before := all;
      var topics := cat[i].topics;
      for j := 0 to |topics|
        invariant all == before + TopicsFlat(topics[..j])
      {
        assert topics[..j + 1][..j] == topics[..j];
        all := all + topics[j].challenges;
      }
      assert topics[..|topics|] == topics;
      assert cat[..i + 1][..i] == cat[..i];
    }
    assert cat[..|cat|] == cat;
  }

  lemma {:induction false} TopicsFlatAppend(a: seq<Topic>, b: seq<Topic>)
    ensures TopicsFlat(a + b) == TopicsFlat(a) + TopicsFlat(b)
    decreases |b|
  {
    if b == [] {
      assert a + b == a;
    } else {
      var b' := b[..|b| - 1];
      assert (a + b)[..|a + b| - 1] == a + b';
      TopicsFlatAppend(a, b');
    }
  }

  lemma {:induction false} FlattenAppend(a: Catalog, b: Catalog)
    ensures Flatten(a + b) == Flatten(a) + Flatten(b)
    decreases |b|
  {
    if b == [] {
      assert a + b == a;
    } else {
      var b' := b[..|b| - 1];
      assert (a + b)[..|a + b| - 1] == a + b';
      FlattenAppend(a, b');
    }
  }

  /** The flattened list around level `i`. */
  lemma {:induction false} FlattenSplit(cat: Catalog, i: nat)
    requires i < |cat|
    ensures Flatten(cat) == Flatten(cat[..i]) + TopicsFlat(cat[i].topics) + Flatten(cat[i + 1..])
    decreases |cat|
  {
    var init := cat[..|cat| - 1];
    if i == |cat| - 1 {
      assert cat[i + 1..] == [];
    } else {
      FlattenSplit(init, i);
      assert init[..i] == cat[..i] && init[i] == cat[i];
      var tail := cat[i + 1..];
      assert tail[..|tail| - 1] == init[i + 1..] && tail[|tail| - 1] == cat[|cat| - 1];
      Regroup4(Flatten(cat[..i]), TopicsFlat(cat[i].topics), Flatten(init[i + 1..]),
               TopicsFlat(cat[|cat| - 1].topics));
    }
  }

  /** The challenges of a list of topics around topic `j`. */
  lemma {:induction false} TopicsFlatSplit(topics: seq<Topic>, j: nat)
    requires j < |topics|
    ensures TopicsFlat(topics) == TopicsFlat(topics[..j]) + topics[j].challenges + TopicsFlat(topics[j + 1..])
    decreases |topics|
  {
    var init := topics[..|topics| - 1];
    if j == |topics| - 1 {
      assert topics[j + 1..] == [];
    } else {
      TopicsFlatSplit(init, j);
      assert init[..j] == topics[..j] && init[j] == topics[j];
      var tail := topics[j + 1..];
      assert tail[..|tail| - 1] == init[j + 1..] && tail[|tail| - 1] == topics[|topics| - 1];
      Regroup4(TopicsFlat(topics[..j]), topics[j].challenges, TopicsFlat(init[j + 1..]),
               topics[|topics| - 1].challenges);
    }
  }

  lemma Regroup4<T>(a: seq<T>, b: seq<T>, c: seq<T>, d: seq<T>)
    ensures a + b + c + d == a + b + (c + d)
  {
  }

  lemma {:induction false} InTopicsFlat(topics: seq<Topic>, c: Challenge)
    ensures c in TopicsFlat(topics) <==> exists j :: 0 <= j < |topics| && c in topics[j].challenges
  {
    if topics != [] {
      var last := |topics| - 1;
      InTopicsFlat(topics[..last], c);
      if c in TopicsFlat(topics) && c !in topics[last].challenges {
        var j :| 0 <= j < last && c in topics[..last][j].challenges;
        assert c in topics[j].challenges;
      }
      if c !in TopicsFlat(topics) {
        forall j | 0 <= j < |topics| ensures c !in topics[j].challenges {
          if j < last {
            assert topics[..last][j] == topics[j];
          }
        }
      }
    }
  }

  /** A challenge is in the flattened list exactly when some topic of some
      level holds it. */
  lemma {:induction false} InFlatten(cat: Catalog, c: Challenge)
    ensures c in Flatten(cat) <==>
      exists i, j :: 0 <= i < |cat| && 0 <= j < |cat[i].topics| && c in cat[i].topics[j].challenges
  {
    if cat != [] {
      var init, last := cat[..|cat| - 1], cat[|cat| - 1];
      InFlatten(init, c);
      InTopicsFlat(last.topics, c);
      ListedSplit(cat, init, last, c);
    }
  }

  /** Being listed in a catalog is being listed in its levels before the
      last or in one of the last level's topics. */
  lemma ListedSplit(cat: Catalog, init: Catalog, last: Level, c: Challenge)
    requires cat == init + [last]
    ensures (exists i, j :: 0 <= i < |cat| && 0 <= j < |cat[i].topics| && c in cat[i].topics[j].challenges) <==>
      (exists i, j :: 0 <= i < |init| && 0 <= j < |init[i].topics| && c in init[i].topics[j].challenges)
      || (exists j :: 0 <= j < |last.topics| && c in last.topics[j].challenges)
  {
    assert forall i :: 0 <= i < |init| ==> init[i] == cat[i];
    assert last == cat[|init|];
  }

  // ---------------------------------------------------------------------
  // Searching the flattened list

  /** `allChallenges.findIndex((c) => c.id === id)`: the first position
      holding that id. */
  function IndexOfId(all: seq<Challenge>, id: string): (r: Option<nat>)
    ensures r.Some? ==>
      r.value < |all| && all[r.value].id == id && forall q :: 0 <= q < r.value ==> all[q].id != id
    ensures r.None? ==> forall q :: 0 <= q < |all| ==> all[q].id != id
  {
    if all == [] then None
    else if all[0].id == id then Some(0)
    else
      match IndexOfId(all[1..], id)
      case None => None
      case Some(p) => Some(p + 1)
  }

  /** The first position in `[lo, hi)` whose challenge is not completed. */
  function FirstOpen(all: seq<Challenge>, completed: set<string>, lo: nat, hi: nat): (r: Option<nat>)
    requires lo <= hi <= |all|
    decreases hi - lo
    ensures r.Some? ==>
      && lo <= r.value < hi
      && all[r.value].id !in completed
      && forall q :: lo <= q < r.value ==> all[q].id in completed
    ensures r.None? ==> forall q :: lo <= q < hi ==> all[q].id in completed
  {
    if lo == hi then None
    else if all[lo].id !in completed then Some(lo)
    else FirstOpen(all, completed, lo + 1, hi)
  }

  /** The position `findNextUncompletedChallenge` answers with: the first
      open position after the current one, else the first one before it. */
  function NextOpenIndex(all: seq<Challenge>, id: string, completed: set<string>): (r: Option<nat>)
  {
    match IndexOfId(all, id)
    case None => None
    case Some(p) =>
      match FirstOpen(all, completed, p + 1, |all|)
      case Some(q) => Some(q)
      case None => FirstOpen(all, completed, 0, p)
  }

  /** `findNextUncompletedChallenge`: the current challenge is located by
      id in the flattened list; the scan goes from the next position to the
      end, then from the start up to the current position. */
  method FindNextUncompletedChallenge(cat: Catalog, current: Challenge, completed: set<string>)
    returns (r: Option<Challenge>)
    ensures var idx := NextOpenIndex(Flatten(cat), current.id, completed);
      r == if idx.Some? then Some(Flatten(cat)[idx.value]) else None
  {
    var all := GetAllChallenges(cat);
    var currentIndex := IndexOfId(all, current.id);
    if currentIndex.None? {
      return None;
    }
    var p := currentIndex.value;
    for i := p + 1 to |all|
      invariant FirstOpen(all, completed, p + 1, |all|) == FirstOpen(all, completed, i, |all|)
    {
      if all[i].id !in completed {
        return Some(all[i]);
      }
    }
    for i := 0 to p
      invariant FirstOpen(all, completed, 0, p) == FirstOpen(all, completed, i, p)
    {
      if all[i].id !in completed {
        return Some(all[i]);
      }
    }
    return None;
  }

  /** What the scan promises: nothing when the current id is absent; an
      answer is never completed and never the current position; it is the
      first open position in cyclic order after the current one; and there
      is no answer exactly when every other position is completed. */
  lemma NextOpenIndexSpec(all: seq<Challenge>, id: string, completed: set<string>)
    ensures IndexOfId(all, id).None? ==> NextOpenIndex(all, id, completed).None?
    ensures IndexOfId(all, id).Some? ==>
      var p := IndexOfId(all, id).value;
      var r := NextOpenIndex(all, id, completed);
      && (r.Some? ==> r.value < |all| && r.value != p && all[r.value].id !in completed)
      && (r.Some? && r.value > p ==> forall q :: p < q < r.value ==> all[q].id in completed)
      && (r.Some? && r.value < p ==>
            (forall q :: p < q < |all| ==> all[q].id in completed) &&
            (forall q :: 0 <= q < r.value ==> all[q].id in completed))
      && (r.None? <==> forall q :: 0 <= q < |all| && q != p ==> all[q].id in completed)
  {
    if IndexOfId(all, id).Some? {
      var p := IndexOfId(all, id).value;
      var after := FirstOpen(all, completed, p + 1, |all|);
      if after.None? {
        var before := FirstOpen(all, completed, 0, p);
        if before.None? {
        }
      }
    }
  }

  /** Once every challenge is completed there is nothing to continue to. */
  lemma AllCompletedNoNext(cat: Catalog, id: string, completed: set<string>)
    requires AreAllChallengesCompleted(cat, completed)
    ensures NextOpenIndex(Flatten(cat), id, completed).None?
  {
    NextOpenIndexSpec(Flatten(cat), id, completed);
  }

  /** `findNextChallenge`, on the flattened list: the entry after the
      current id, whatever its completion. */
  function NextOf(all: seq<Challenge>, id: string): (r: Option<Challenge>)
    ensures r.None? <==> IndexOfId(all, id).None? || IndexOfId(all, id).value == |all| - 1
  {
    match IndexOfId(all, id)
    case None => None
    case Some(p) => if p == |all| - 1 then None else Some(all[p + 1])
  }

  /** `findPrevChallenge`, on the flattened list: the entry before the
      current id. */
  function PrevOf(all: seq<Challenge>, id: string): (r: Option<Challenge>)
    ensures r.None? <==> IndexOfId(all, id).None? || IndexOfId(all, id).value == 0
  {
    match IndexOfId(all, id)
    case None => None
    case Some(p) => if p == 0 then None else Some(all[p - 1])
  }

  method FindNextChallenge(cat: Catalog, current: Challenge) returns (r: Option<Challenge>)
    ensures r == NextOf(Flatten(cat), current.id)
  {
    var all := GetAllChallenges(cat);
    var currentIndex := IndexOfId(all, current.id);
    if currentIndex.None? || currentIndex.value == |all| - 1 {
      return None;
    }
    return Some(all[currentIndex.value + 1]);
  }

  method FindPrevChallenge(cat: Catalog, current: Challenge) returns (r: Option<Challenge>)
    ensures r == PrevOf(Flatten(cat), current.id)
  {
    var all := GetAllChallenges(cat);
    var currentIndex := IndexOfId(all, current.id);
    if currentIndex.None? || currentIndex.value == 0 {
      return None;
    }
    return Some(all[currentIndex.value - 1]);
  }

  predicate UniqueIds(all: seq<Challenge>)
  {
    forall a, b :: 0 <= a < b < |all| ==> all[a].id != all[b].id
  }

  /** With unique ids, the position of an entry's id is its own position. */
  lemma IndexOfOwnId(all: seq<Challenge>, p: nat)
    requires UniqueIds(all) && p < |all|
    ensures IndexOfId(all, all[p].id) == Some(p)
  {
    var r := IndexOfId(all, all[p].id);
  }

  /** Going forward then back returns to the entry with the current id. */
  lemma PrevAfterNext(all: seq<Challenge>, id: string)
    requires UniqueIds(all)
    requires NextOf(all, id).Some?
    ensures PrevOf(all, NextOf(all, id).value.id) == Some(all[IndexOfId(all, id).value])
    ensures all[IndexOfId(all, id).value].id == id
  {
    var p := IndexOfId(all, id).value;
    IndexOfOwnId(all, p + 1);
  }

  /** Going back then forward returns to the entry with the current id. */
  lemma NextAfterPrev(all: seq<Challenge>, id: string)
    requires UniqueIds(all)
    requires PrevOf(all, id).Some?
    ensures NextOf(all, PrevOf(all, id).value.id) == Some(all[IndexOfId(all, id).value])
  {
    var p := IndexOfId(all, id).value;
    IndexOfOwnId(all, p - 1);
  }

  // ---------------------------------------------------------------------
  // Counting and completion

  /** `getTotalChallengeCount`. */
  function TotalChallengeCount(cat: Catalog): nat
  {
    |Flatten(cat)|
  }

  /** The number of challenges under one level (the sidebar's total). */
  function LevelTotal(level: Level): nat
  {
    |TopicsFlat(level.topics)|
  }

  function SumOfLevelTotals(cat: Catalog): nat
  {
    if cat == [] then 0 else SumOfLevelTotals(cat[..|cat| - 1]) + LevelTotal(cat[|cat| - 1])
  }

  /** The catalog count is the sum of the per-level totals. */
  lemma {:induction false} TotalIsSumOfLevels(cat: Catalog)
    ensures TotalChallengeCount(cat) == SumOfLevelTotals(cat)
  {
    if cat != [] {
      TotalIsSumOfLevels(cat[..|cat| - 1]);
    }
  }

  /** `areAllChallengesCompleted`: every flattened id is in the set. */
  predicate AreAllChallengesCompleted(cat: Catalog, completed: set<string>)
  {
    forall q :: 0 <= q < |Flatten(cat)| ==> Flatten(cat)[q].id in completed
  }

  /** Completion of the whole catalog, stated on its nesting: every
      challenge of every topic of every level; an empty catalog is complete. */
  lemma AllCompletedNested(cat: Catalog, completed: set<string>)
    ensures AreAllChallengesCompleted(cat, completed) <==>
      forall i, j, c :: 0 <= i < |cat| && 0 <= j < |cat[i].topics| && c in cat[i].topics[j].challenges
        ==> c.id in completed
    ensures cat == [] ==> AreAllChallengesCompleted(cat, completed)
  {
    var all := Flatten(cat);
    if AreAllChallengesCompleted(cat, completed) {
      forall i, j, c | 0 <= i < |cat| && 0 <= j < |cat[i].topics| && c in cat[i].topics[j].challenges
        ensures c.id in completed
      {
        InFlatten(cat, c);
        var q :| 0 <= q < |all| && all[q] == c;
      }
    } else {
      var q :| 0 <= q < |all| && all[q].id !in completed;
      InFlatten(cat, all[q]);
    }
  }

  // ---------------------------------------------------------------------
  // Searching the nesting

  /** `challenges.some((c) => c.id === id)`. */
  predicate HasId(challenges: seq<Challenge>, id: string)
  {
    exists k :: 0 <= k < |challenges| && challenges[k].id == id
  }

  /** Some topic of the level holds the id. */
  predicate InLevel(level: Level, id: string)
  {
    exists j :: 0 <= j < |level.topics| && HasId(level.topics[j].challenges, id)
  }

  /** The first level, from position `i` on, that holds the id. */
  function FirstLevelFrom(cat: Catalog, id: string, i: nat): (r: Option<nat>)
    requires i <= |cat|
    decreases |cat| - i
    ensures r.Some? ==>
      i <= r.value < |cat| && InLevel(cat[r.value], id) && forall q :: i <= q < r.value ==> !InLevel(cat[q], id)
    ensures r.None? ==> forall q :: i <= q < |cat| ==> !InLevel(cat[q], id)
  {
    if i == |cat| then None
    else if InLevel(cat[i], id) then Some(i)
    else FirstLevelFrom(cat, id, i + 1)
  }

  /** The first topic of a level that holds the id. */
  function FirstTopicFrom(topics: seq<Topic>, id: string, j: nat): (r: Option<nat>)
    requires j <= |topics|
    decreases |topics| - j
    ensures r.Some? ==>
      && j <= r.value < |topics|
      && HasId(topics[r.value].challenges, id)
      && forall q :: j <= q < r.value ==> !HasId(topics[q].challenges, id)
    ensures r.None? ==> forall q :: j <= q < |topics| ==> !HasId(topics[q].challenges, id)
  {
    if j == |topics| then None
    else if HasId(topics[j].challenges, id) then Some(j)
    else FirstTopicFrom(topics, id, j + 1)
  }

  /** A level holds the id exactly when some challenge under it has it,
      which is when the id occurs in the flattened list. */
  lemma FirstLevelIffListed(cat: Catalog, id: string)
    ensures FirstLevelFrom(cat, id, 0).Some? <==> IndexOfId(Flatten(cat), id).Some?
  {
    var all := Flatten(cat);
    var r := FirstLevelFrom(cat, id, 0);
    if r.Some? {
      var i := r.value;
      var j :| 0 <= j < |cat[i].topics| && HasId(cat[i].topics[j].challenges, id);
      var k :| 0 <= k < |cat[i].topics[j].challenges| && cat[i].topics[j].challenges[k].id == id;
      var c := cat[i].topics[j].challenges[k];
      InFlatten(cat, c);
      var q :| 0 <= q < |all| && all[q] == c;
    }
    if IndexOfId(all, id).Some? {
      var c := all[IndexOfId(all, id).value];
      InFlatten(cat, c);
      var i, j :| 0 <= i < |cat| && 0 <= j < |cat[i].topics| && c in cat[i].topics[j].challenges;
      var k :| 0 <= k < |cat[i].topics[j].challenges| && cat[i].topics[j].challenges[k] == c;
      assert HasId(cat[i].topics[j].challenges, id);
      assert InLevel(cat[i], id);
    }
  }

  /** `getChallengeDifficulty`: the name of the first level, in key order,
      one of whose topics holds a challenge with the id. */
  method GetChallengeDifficulty(cat: Catalog, id: string) returns (r: Option<string>)
    ensures var i := FirstLevelFrom(cat, id, 0);
      r == if i.Some? then Some(cat[i.value].name) else None
  {
    for i := 0 to |cat|
      invariant FirstLevelFrom(cat, id, 0) == FirstLevelFrom(cat, id, i)
    {
      var topics := cat[i].topics;
      for j := 0 to |topics|
        invariant forall q :: 0 <= q < j ==> !HasId(topics[q].challenges, id)
      {
        if HasId(topics[j].challenges, id) {
          return Some(cat[i].name);
        }
      }
    }
    return None;
  }

  /** `challengeData.levels[name]`: object keys are unique, so the first
      level with that name. */
  function LevelNamed(cat: Catalog, name: string): (r: Option<Level>)
    ensures r.Some? ==> r.value in cat && r.value.name == name
    ensures r.None? ==> forall i :: 0 <= i < |cat| ==> cat[i].name != name
  {
    if cat == [] then None
    else if cat[0].name == name then Some(cat[0])
    else LevelNamed(cat[1..], name)
  }

  /** `level[name]`: the first topic with that name. */
  function TopicNamed(topics: seq<Topic>, name: string): (r: Option<Topic>)
    ensures r.Some? ==> r.value in topics && r.value.name == name
    ensures r.None? ==> forall j :: 0 <= j < |topics| ==> topics[j].name != name
  {
    if topics == [] then None
    else if topics[0].name == name then Some(topics[0])
    else TopicNamed(topics[1..], name)
  }

  // ---------------------------------------------------------------------
  // The two page helpers

  /** `findChallengeById` of the challenge page: the first challenge with
      that id in level, topic and array order. */
  function ChallengeById(cat: Catalog, id: string): (r: Option<Challenge>)
  {
    var all := Flatten(cat);
    match IndexOfId(all, id)
    case None => None
    case Some(p) => Some(all[p])
  }

  /** The search answers with a challenge carrying the id, it is the first
      one in the flattened order, and there is no answer exactly when the id
      is absent from the catalog. */
  lemma ChallengeByIdSpec(cat: Catalog, id: string)
    ensures var r := ChallengeById(cat, id);
      && (r.Some? ==> r.value.id == id && r.value in Flatten(cat))
      && (r.None? <==> forall c :: c in Flatten(cat) ==> c.id != id)
  {
  }

  method FindChallengeById(cat: Catalog, id: string) returns (r: Option<Challenge>)
    ensures r == ChallengeById(cat, id)
  {
    ghost var seen: seq<Challenge> := [];
    for i := 0 to |cat|
      invariant seen == Flatten(cat[..i])
      invariant forall q :: 0 <= q < |seen| ==> seen[q].id != id
    {
      var topics := cat[i].topics;
      for j := 0 to |topics|
        invariant seen == Flatten(cat[..i]) + TopicsFlat(topics[..j])
        invariant forall q :: 0 <= q < |seen| ==> seen[q].id != id
      {
        var k := IndexOfId(topics[j].challenges, id);
        if k.Some? {
          FoundAt(cat, id, i, j, k.value, seen);
          return Some(topics[j].challenges[k.value]);
        }
        assert topics[..j + 1][..j] == topics[..j];
        seen := seen + topics[j].challenges;
      }
      assert topics[..|topics|] == topics;
      assert cat[..i + 1][..i] == cat[..i];
    }
    assert cat[..|cat|] == cat;
    r := None;
  }

  lemma FoundAt(cat: Catalog, id: string, i: nat, j: nat, k: nat, seen: seq<Challenge>)
    requires i < |cat| && j < |cat[i].topics|
    requires seen == Flatten(cat[..i]) + TopicsFlat(cat[i].topics[..j])
    requires forall q :: 0 <= q < |seen| ==> seen[q].id != id
    requires IndexOfId(cat[i].topics[j].challenges, id) == Some(k)
    ensures ChallengeById(cat, id) == Some(cat[i].topics[j].challenges[k])
  {
    var challenges := cat[i].topics[j].challenges;
    var rest := TopicsFlat(cat[i].topics[j + 1..]) + Flatten(cat[i + 1..]);
    var all := Flatten(cat);
    assert all == seen + challenges + rest by {
      FlattenSplit(cat, i);
      TopicsFlatSplit(cat[i].topics, j);
      Regroup(Flatten(cat[..i]), TopicsFlat(cat[i].topics[..j]), challenges,
              TopicsFlat(cat[i].topics[j + 1..]), Flatten(cat[i + 1..]));
    }
    assert IndexOfId(all, id) == Some(|seen| + k) && all[|seen| + k] == challenges[k] by {
      IndexAfter(seen, challenges, rest, id, k);
    }
  }

  lemma Regroup<T>(a: seq<T>, b: seq<T>, c: seq<T>, d: seq<T>, e: seq<T>)
    ensures a + (b + c + d) + e == a + b + c + (d + e)
  {
  }

  /** The first position of an id in `seen + found + rest` when `seen`
      does not hold it and `found` holds it first at `k`. */
  lemma IndexAfter(seen: seq<Challenge>, found: seq<Challenge>, rest: seq<Challenge>, id: string, k: nat)
    requires forall q :: 0 <= q < |seen| ==> seen[q].id != id
    requires IndexOfId(found, id) == Some(k)
    ensures IndexOfId(seen + found + rest, id) == Some(|seen| + k)
    ensures (seen + found + rest)[|seen| + k] == found[k]
  {
    var all := seen + found + rest;
    assert all[|seen| + k] == found[k];
    forall q | 0 <= q < |seen| + k ensures all[q].id != id {
      if q < |seen| {
        assert all[q] == seen[q];
      } else {
        assert all[q] == found[q - |seen|];
      }
    }
  }

  /** The fallback of `findFirstUncompletedChallenge`: the first challenge
      of the first topic, when there is one. */
  function FirstOfFirstTopic(level: Level): (r: Option<Challenge>)
    ensures r.Some? <==> level.topics != [] && level.topics[0].challenges != []
  {
    if level.topics == [] || level.topics[0].challenges == [] then None
    else Some(level.topics[0].challenges[0])
  }

  /** What `findFirstUncompletedChallenge` answers for a level: the first
      challenge, in topic order, that is not completed, else the fallback;
      nothing for an unknown level. */
  function FirstUncompleted(cat: Catalog, levelName: string, completed: set<string>): (r: Option<Challenge>)
  {
    match LevelNamed(cat, levelName)
    case None => None
    case Some(level) =>
      var all := TopicsFlat(level.topics);
      match FirstOpen(all, completed, 0, |all|)
      case Some(q) => Some(all[q])
      case None => FirstOfFirstTopic(level)
  }

  /** An answer is uncompleted unless every challenge of the level is
      completed; it belongs to the level; the fallback is only taken when
      nothing is left. */
  lemma FirstUncompletedSpec(cat: Catalog, levelName: string, completed: set<string>)
    ensures LevelNamed(cat, levelName).None? ==> FirstUncompleted(cat, levelName, completed).None?
    ensures LevelNamed(cat, levelName).Some? ==>
      var level := LevelNamed(cat, levelName).value;
      var all := TopicsFlat(level.topics);
      var r := FirstUncompleted(cat, levelName, completed);
      && (r.Some? ==> r.value in all)
      && ((exists q :: 0 <= q < |all| && all[q].id !in completed) ==>
            r.Some? && r.value.id !in completed && r.value in all)
      && ((forall q :: 0 <= q < |all| ==> all[q].id in completed) ==> r == FirstOfFirstTopic(level))
  {
    match LevelNamed(cat, levelName)
    case None =>
    case Some(level) =>
      var r := FirstUncompleted(cat, levelName, completed);
      if r.Some? && FirstOpen(TopicsFlat(level.topics), completed, 0, |TopicsFlat(level.topics)|).None? {
        InTopicsFlat(level.topics, r.value);
        assert r.value in level.topics[0].challenges;
      }
  }

  /** `findFirstUncompletedChallenge`, written identically in the challenge
      page and the landing page: the level is looked up by name, its topics
      are scanned in key order, and the fallback is the first challenge of
      the first topic. */
  method FindFirstUncompletedChallenge(cat: Catalog, levelName: string, completed: set<string>)
    returns (r: Option<Challenge>)
    ensures r == FirstUncompleted(cat, levelName, completed)
  {
    var found := LevelNamed(cat, levelName);
    if found.None? {
      return None;
    }
    var level := found.value;
    ghost var all := TopicsFlat(level.topics);
    for j := 0 to |level.topics|
      invariant forall q :: 0 <= q < |TopicsFlat(level.topics[..j])| ==> TopicsFlat(level.topics[..j])[q].id in completed
    {
      var challenges := level.topics[j].challenges;
      for k := 0 to |challenges|
        invariant forall q :: 0 <= q < k ==> challenges[q].id in completed
      {
        if challenges[k].id !in completed {
          OpenAt(level.topics, completed, j, k);
          return Some(challenges[k]);
        }
      }
      TopicsFlatAppend(level.topics[..j], [level.topics[j]]);
      assert level.topics[..j] + [level.topics[j]] == level.topics[..j + 1];
      assert [level.topics[j]][..0] == [];
    }
    assert level.topics[..|level.topics|] == level.topics;
    return FirstOfFirstTopic(level);
  }

  lemma OpenAt(topics: seq<Topic>, completed: set<string>, j: nat, k: nat)
    requires j < |topics| && k < |topics[j].challenges|
    requires forall q :: 0 <= q < |TopicsFlat(topics[..j])| ==> TopicsFlat(topics[..j])[q].id in completed
    requires forall q :: 0 <= q < k ==> topics[j].challenges[q].id in completed
    requires topics[j].challenges[k].id !in completed
    ensures var all := TopicsFlat(topics);
      FirstOpen(all, completed, 0, |all|) == Some(|TopicsFlat(topics[..j])| + k)
      && all[|TopicsFlat(topics[..j])| + k] == topics[j].challenges[k]
  {
    var seen := TopicsFlat(topics[..j]);
    var challenges := topics[j].challenges;
    TopicsFlatSplit(topics, j);
    var all := TopicsFlat(topics);
    assert all[|seen| + k] == challenges[k];
    forall q | 0 <= q < |seen| + k ensures all[q].id in completed {
      if q < |seen| {
        assert all[q] == seen[q];
      } else {
        assert all[q] == challenges[q - |seen|];
      }
    }
    assert FirstOpen(all, completed, 0, |all|) == Some(|seen| + k);
  }
}
