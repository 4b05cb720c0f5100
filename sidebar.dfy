/** `src/components/Sidebar.tsx`: which levels and topics are expanded,
    the searches that locate the selected challenge, and the progress
    counters shown beside each level and topic. */
module SidebarView {
  import opened Text
  import opened Challenges

  /** The level expanded when no challenge is selected. */
  const DefaultLevel: string := "Beginner"

  /** The key of a topic in the expanded-topics set: `${level}-${topic}`. */
  function TopicKey(level: string, topic: string): string
  {
    level + "-" + topic
  }

  /** The keys of every topic of a level. */
  function TopicKeys(level: string, topics: seq<Topic>): set<string>
  {
    set j | 0 <= j < |topics| :: TopicKey(level, topics[j].name)
  }

  /** `findChallengeLevel`: nothing for a missing or empty id, else the
      first level holding the id. */
  function LevelOfSelection(cat: Catalog, id: Option<string>): Option<string>
  {
    if id.None? || id.value == "" then None
    else
      match FirstLevelFrom(cat, id.value, 0)
      case None => None
      case Some(i) => Some(cat[i].name)
  }

  /** `findChallengeTopic`: the key of the first topic, in level then
      topic order, holding the id. */
  function TopicOfSelection(cat: Catalog, id: Option<string>): Option<string>
  {
    if id.None? || id.value == "" then None
    else
      match FirstLevelFrom(cat, id.value, 0)
      case None => None
      case Some(i) =>
        match FirstTopicFrom(cat[i].topics, id.value, 0)
        case None => None
        case Some(j) => Some(TopicKey(cat[i].name, cat[i].topics[j].name))
  }

  /** The two searches agree: a topic is found exactly when a level is,
      and its key is that level's name, a dash and the name of a topic of
      that level holding the id. */
  lemma SelectionAgrees(cat: Catalog, id: Option<string>)
    ensures TopicOfSelection(cat, id).Some? <==> LevelOfSelection(cat, id).Some?
    ensures TopicOfSelection(cat, id).Some? ==>
      var level := cat[FirstLevelFrom(cat, id.value, 0).value];
      && LevelOfSelection(cat, id) == Some(level.name)
      && (exists t :: t in level.topics && HasId(t.challenges, id.value)
           && TopicOfSelection(cat, id) == Some(TopicKey(level.name, t.name)))
  {
    if id.Some? && id.value != "" && FirstLevelFrom(cat, id.value, 0).Some? {
      var i := FirstLevelFrom(cat, id.value, 0).value;
      var j :| 0 <= j < |cat[i].topics| && HasId(cat[i].topics[j].challenges, id.value);
      var jj := FirstTopicFrom(cat[i].topics, id.value, 0).value;
      assert cat[i].topics[jj] in cat[i].topics;
    }
  }

  /** A found name that JavaScript treats as true: present and not empty. */
  predicate Truthy(name: Option<string>)
  {
    name.Some? && name.value != ""
  }

  /** The nested search of `findChallengeTopic`. */
  method FindChallengeTopic(cat: Catalog, id: Option<string>) returns (r: Option<string>)
    ensures r == TopicOfSelection(cat, id)
  {
    if id.None? || id.value == "" {
      return None;
    }
    for i := 0 to |cat|
      invariant FirstLevelFrom(cat, id.value, 0) == FirstLevelFrom(cat, id.value, i)
    {
      var topics := cat[i].topics;
      for j := 0 to |topics|
        invariant forall q :: 0 <= q < j ==> !HasId(topics[q].challenges, id.value)
        invariant FirstTopicFrom(topics, id.value, 0) == FirstTopicFrom(topics, id.value, j)
      {
        if HasId(topics[j].challenges, id.value) {
          return Some(TopicKey(cat[i].name, topics[j].name));
        }
      }
    }
    return None;
  }

  /** `findChallengeLevel`, which shares the search of
      `getChallengeDifficulty` after its guard on the id. */
  method FindChallengeLevel(cat: Catalog, id: Option<string>) returns (r: Option<string>)
    ensures r == LevelOfSelection(cat, id)
  {
    if id.None? || id.value == "" {
      return None;
    }
    r := GetChallengeDifficulty(cat, id.value);
  }

  /** Membership of one key flipped, every other kept. */
  function Flip(s: set<string>, key: string): (r: set<string>)
    ensures key in r <==> key !in s
    ensures forall x :: x != key ==> (x in r <==> x in s)
  {
    if key in s then s - {key} else s + {key}
  }

  /** Toggling a topic twice restores the set. */
  lemma FlipTwice(s: set<string>, key: string)
    ensures Flip(Flip(s, key), key) == s
  {
  }

  datatype Counts = Counts(completed: nat, total: nat)

  /** `challenges.filter((c) => completed.has(c.id))`. */
  function CompletedOf(cs: seq<Challenge>, completed: set<string>): seq<Challenge>
  {
    if cs == [] then []
    else CompletedOf(cs[..|cs| - 1], completed) + (if cs[|cs| - 1].id in completed then [cs[|cs| - 1]] else [])
  }

  lemma {:induction false} CompletedOfAppend(a: seq<Challenge>, b: seq<Challenge>, completed: set<string>)
    ensures CompletedOf(a + b, completed) == CompletedOf(a, completed) + CompletedOf(b, completed)
    decreases |b|
  {
    if b == [] {
      assert a + b == a;
    } else {
      var b' := b[..|b| - 1];
      assert (a + b)[..|a + b| - 1] == a + b';
      CompletedOfAppend(a, b', completed);
    }
  }

  /** The completed count never exceeds the total, and reaches it exactly
      when every challenge is completed. */
  lemma {:induction false} CompletedOfBound(cs: seq<Challenge>, completed: set<string>)
    ensures |CompletedOf(cs, completed)| <= |cs|
    ensures |CompletedOf(cs, completed)| == |cs| <==> forall k :: 0 <= k < |cs| ==> cs[k].id in completed
  {
    if cs != [] {
      var init := cs[..|cs| - 1];
      CompletedOfBound(init, completed);
      if |CompletedOf(cs, completed)| == |cs| {
        forall k | 0 <= k < |cs| ensures cs[k].id in completed {
          if k < |init| {
            assert cs[k] == init[k];
          }
        }
      }
      if forall k :: 0 <= k < |cs| ==> cs[k].id in completed {
        assert forall k :: 0 <= k < |init| ==> init[k] == cs[k];
      }
    }
  }

  /** `getTopicProgress`: the level and the topic are looked up by name;
      `None` when either is missing, where the source throws. */
  function GetTopicProgress(cat: Catalog, level: string, topic: string, completed: set<string>): (r: Option<Counts>)
    ensures r.Some? ==> r.value.completed <= r.value.total
  {
    match LevelNamed(cat, level)
    case None => None
    case Some(l) =>
      match TopicNamed(l.topics, topic)
      case None => None
      case Some(t) =>
        CompletedOfBound(t.challenges, completed);
        Some(Counts(|CompletedOf(t.challenges, completed)|, |t.challenges|))
  }

  /** A topic is shown as complete exactly when all of its challenges are
      completed: for the level `l` and topic `t` the names resolve to, the
      counts are those of `t`, and they are equal exactly when every
      challenge of `t` is completed. */
  lemma TopicShownComplete(cat: Catalog, level: string, topic: string, completed: set<string>, l: Level, t: Topic)
    requires LevelNamed(cat, level) == Some(l) && TopicNamed(l.topics, topic) == Some(t)
    ensures GetTopicProgress(cat, level, topic, completed)
         == Some(Counts(|CompletedOf(t.challenges, completed)|, |t.challenges|))
    ensures |CompletedOf(t.challenges, completed)| == |t.challenges|
        <==> forall k :: 0 <= k < |t.challenges| ==> t.challenges[k].id in completed
  {
    CompletedOfBound(t.challenges, completed);
  }

  /** `getLevelProgress`: the totals of every topic of the level and the
      number of completed challenges among them; `None` when the level is
      missing, where the source throws. */
  method GetLevelProgress(cat: Catalog, level: string, completed: set<string>) returns (r: Option<Counts>)
    ensures LevelNamed(cat, level).None? ==> r.None?
    ensures LevelNamed(cat, level).Some? ==>
      var all := TopicsFlat(LevelNamed(cat, level).value.topics);
      r == Some(Counts(|CompletedOf(all, completed)|, |all|))
  {
    var found := LevelNamed(cat, level);
    if found.None? {
      return None;
    }
    var topics := found.value.topics;
    var totalChallenges := 0;
    var completedCount := 0;
    for j := 0 to |topics|
      invariant totalChallenges == |TopicsFlat(topics[..j])|
      invariant completedCount == |CompletedOf(TopicsFlat(topics[..j]), completed)|
    {
      var challenges := topics[j].challenges;
      totalChallenges := totalChallenges + |challenges|;
      ghost var before := completedCount;
      for k := 0 to |challenges|
        invariant completedCount == before + |CompletedOf(challenges[..k], completed)|
      {
        assert challenges[..k + 1][..k] == challenges[..k];
        if challenges[k].id in completed {
          completedCount := completedCount + 1;
        }
      }
      assert challenges[..|challenges|] == challenges;
      assert topics[..j + 1][..j] == topics[..j];
      CompletedOfAppend(TopicsFlat(topics[..j]), challenges, completed);
    }
    assert topics[..|topics|] == topics;
    return Some(Counts(completedCount, totalChallenges));
  }

  /** A level's completed count never exceeds its total, and reaches it
      exactly when every challenge under it is completed. */
  lemma LevelProgressBound(level: Level, completed: set<string>)
    ensures var all := TopicsFlat(level.topics);
      && |CompletedOf(all, completed)| <= |all|
      && (|CompletedOf(all, completed)| == |all| <==> forall k :: 0 <= k < |all| ==> all[k].id in completed)
  {
    CompletedOfBound(TopicsFlat(level.topics), completed);
  }

  /** The sidebar's expanded levels and topics. */
  class Sidebar {
    const cat: Catalog
    var expandedLevels: set<string>
    var expandedTopics: set<string>

    /** The initial state: the selected challenge's level and topic, or the
        default level and no topic. */
    constructor (cat: Catalog, selectedId: Option<string>)
      ensures this.cat == cat
      ensures expandedLevels ==
        if Truthy(LevelOfSelection(cat, selectedId)) then {LevelOfSelection(cat, selectedId).value} else {DefaultLevel}
      ensures expandedTopics ==
        if Truthy(TopicOfSelection(cat, selectedId)) then {TopicOfSelection(cat, selectedId).value} else {}
    {
      this.cat := cat;
      var currentLevel := FindChallengeLevel(cat, selectedId);
      var currentTopic := FindChallengeTopic(cat, selectedId);
      expandedLevels := if currentLevel.Some? && currentLevel.value != "" then {currentLevel.value} else {DefaultLevel};
      expandedTopics := if currentTopic.Some? && currentTopic.value != "" then {currentTopic.value} else {};
    }

    /** The effect run when the selected challenge changes: its level and
        topic are added; nothing is removed. */
    method SelectionChanged(selectedId: Option<string>)
      modifies this
      ensures old(expandedLevels) <= expandedLevels && old(expandedTopics) <= expandedTopics
      ensures expandedLevels == old(expandedLevels) +
        (if Truthy(LevelOfSelection(cat, selectedId)) then {LevelOfSelection(cat, selectedId).value} else {})
      ensures expandedTopics == old(expandedTopics) +
        (if Truthy(TopicOfSelection(cat, selectedId)) then {TopicOfSelection(cat, selectedId).value} else {})
    {
      var newLevel := FindChallengeLevel(cat, selectedId);
      var newTopic := FindChallengeTopic(cat, selectedId);
      if newLevel.Some? && newLevel.value != "" {
        expandedLevels := expandedLevels + {newLevel.value};
      }
      if newTopic.Some? && newTopic.value != "" {
        expandedTopics := expandedTopics + {newTopic.value};
      }
    }

    /** `toggleLevel`: collapsing a level also collapses its topics;
        expanding leaves the topics alone. Collapsing a level the catalog
        does not have throws before any state is set (`ok` is false). */
    method ToggleLevel(level: string) returns (ok: bool)
      modifies this
      ensures level !in old(expandedLevels) ==>
        ok && expandedLevels == old(expandedLevels) + {level} && expandedTopics == old(expandedTopics)
      ensures level in old(expandedLevels) && LevelNamed(cat, level).None? ==>
        !ok && expandedLevels == old(expandedLevels) && expandedTopics == old(expandedTopics)
      ensures level in old(expandedLevels) && LevelNamed(cat, level).Some? ==>
        && ok
        && expandedLevels == old(expandedLevels) - {level}
        && expandedTopics == old(expandedTopics) - TopicKeys(level, LevelNamed(cat, level).value.topics)
    {
      if level in expandedLevels {
        var found := LevelNamed(cat, level);
        if found.None? {
          return false;
        }
        var topics := found.value.topics;
        var newExpandedTopics := expandedTopics;
        for j := 0 to |topics|
          invariant newExpandedTopics == expandedTopics - TopicKeys(level, topics[..j])
        {
          assert TopicKeys(level, topics[..j + 1]) == TopicKeys(level, topics[..j]) + {TopicKey(level, topics[j].name)} by {
            assert forall q :: 0 <= q < j ==> topics[..j + 1][q] == topics[..j][q];
          }
          newExpandedTopics := newExpandedTopics - {TopicKey(level, topics[j].name)};
        }
        assert topics[..|topics|] == topics;
        expandedTopics := newExpandedTopics;
        expandedLevels := expandedLevels - {level};
      } else {
        expandedLevels := expandedLevels + {level};
      }
      return true;
    }

    /** `toggleTopic`: flips the topic's key and nothing else. */
    method ToggleTopic(level: string, topic: string)
      modifies this
      ensures expandedTopics == Flip(old(expandedTopics), TopicKey(level, topic))
      ensures expandedLevels == old(expandedLevels)
    {
      var topicKey := TopicKey(level, topic);
      if topicKey in expandedTopics {
        expandedTopics := expandedTopics - {topicKey};
      } else {
        expandedTopics := expandedTopics + {topicKey};
      }
    }
  }
}
