/** `src/pages/ChallengePage.tsx` and `src/pages/LandingPage.tsx`: what the
    two pages decide about the selected challenge, the navigation they
    request, their modals and the stored sidebar flag. Every handler is one
    sequential step; the delayed completion check of the challenge page runs
    at once. */
module Pages {
  import opened Text
  import opened Executor
  import opened Challenges
  import opened ProgressStore
  import opened JsonArray
  import opened Editor

  /** A navigation request: `/`, or `/challenge/<id>` with or without the
      `fromLanding` state. */
  datatype Route = Home | ChallengeAt(id: string, fromLanding: bool)

  /** The key of the desktop sidebar flag in `localStorage`. */
  const DesktopSidebarKey: string := "desktopSidebarOpen"

  /** `JSON.stringify` of a boolean. */
  function FlagText(b: bool): (t: string)
    ensures t == "true" || t == "false"
  {
    if b then "true" else "false"
  }

  /** The initial desktop flag: absent means closed; `"true"` means open and
      `"false"` closed. */
  function ReadFlag(stored: Option<string>): (b: bool)
    ensures stored.None? ==> !b
  {
    stored == Some("true")
  }

  /** What is stored is read back as the flag it stores. */
  lemma FlagRoundTrip(b: bool)
    ensures ReadFlag(Some(FlagText(b))) == b
  {
  }

  /** The challenge a route parameter selects: none for a missing or empty
      id, else `findChallengeById`. */
  function RouteTarget(cat: Catalog, challengeId: Option<string>): Option<Challenge>
  {
    if challengeId.None? || challengeId.value == "" then None else ChallengeById(cat, challengeId.value)
  }

  /** A route parameter selects a challenge exactly when the catalog holds
      its id, and the selection carries that id. */
  lemma RouteTargetSpec(cat: Catalog, challengeId: Option<string>)
    ensures RouteTarget(cat, challengeId).Some? <==>
      challengeId.Some? && challengeId.value != "" && exists c :: c in Flatten(cat) && c.id == challengeId.value
    ensures RouteTarget(cat, challengeId).Some? ==>
      RouteTarget(cat, challengeId).value.id == challengeId.value
  {
    if challengeId.Some? && challengeId.value != "" {
      ChallengeByIdSpec(cat, challengeId.value);
    }
  }

  /** The challenge a level selection leads to belongs to the catalog. */
  lemma LevelChoiceListed(cat: Catalog, levelName: string, completed: set<string>)
    requires FirstUncompleted(cat, levelName, completed).Some?
    ensures FirstUncompleted(cat, levelName, completed).value in Flatten(cat)
  {
    var ch := FirstUncompleted(cat, levelName, completed).value;
    FirstUncompletedSpec(cat, levelName, completed);
    var level := LevelNamed(cat, levelName).value;
    var i :| 0 <= i < |cat| && cat[i] == level;
    InTopicsFlat(level.topics, ch);
    var j :| 0 <= j < |level.topics| && ch in level.topics[j].challenges;
    InFlatten(cat, ch);
  }

  /** The challenge a level selection leads to is one the challenge page
      then finds by its id; with unique ids it is that very challenge. */
  lemma LevelChoiceResolves(cat: Catalog, levelName: string, completed: set<string>)
    requires FirstUncompleted(cat, levelName, completed).Some?
    ensures var ch := FirstUncompleted(cat, levelName, completed).value;
      && (ch.id != "" ==> RouteTarget(cat, Some(ch.id)).Some?)
      && (ch.id != "" && UniqueIds(Flatten(cat)) ==> RouteTarget(cat, Some(ch.id)) == Some(ch))
  {
    var ch := FirstUncompleted(cat, levelName, completed).value;
    var all := Flatten(cat);
    assert ch in all by {
      LevelChoiceListed(cat, levelName, completed);
    }
    var p :| 0 <= p < |all| && all[p] == ch;
    assert IndexOfId(all, ch.id).Some?;
    if UniqueIds(all) {
      IndexOfOwnId(all, p);
    }
  }

  /** The state of the challenge page that its handlers change. */
  class ChallengePage {
    const cat: Catalog
    const progress: Progress
    var selected: Option<Challenge>
    var navigations: seq<Route>
    var showLevelModal: bool
    var showAllCompleteModal: bool
    var desktopSidebarOpen: bool
    /** `localStorage.getItem('desktopSidebarOpen')`. */
    var storedDesktop: Option<string>

    constructor (cat: Catalog, progress: Progress, storedDesktop: Option<string>)
      ensures this.cat == cat && this.progress == progress
      ensures selected.None? && navigations == [] && !showLevelModal && !showAllCompleteModal
      ensures this.storedDesktop == storedDesktop && desktopSidebarOpen == ReadFlag(storedDesktop)
    {
      this.cat := cat;
      this.progress := progress;
      selected := None;
      navigations := [];
      showLevelModal := false;
      showAllCompleteModal := false;
      this.storedDesktop := storedDesktop;
      desktopSidebarOpen := storedDesktop == Some("true");
    }

    /** The effect run when the route parameter changes: a known id selects
        its challenge; a missing, empty or unknown id asks for `/` and keeps
        the selection. */
    method RouteChanged(challengeId: Option<string>)
      modifies this
      ensures RouteTarget(cat, challengeId).Some? ==>
        selected == RouteTarget(cat, challengeId) && navigations == old(navigations)
      ensures RouteTarget(cat, challengeId).None? ==>
        selected == old(selected) && navigations == old(navigations) + [Home]
      ensures showLevelModal == old(showLevelModal) && showAllCompleteModal == old(showAllCompleteModal)
      ensures desktopSidebarOpen == old(desktopSidebarOpen) && storedDesktop == old(storedDesktop)
    {
      if challengeId.Some? && challengeId.value != "" {
        var challenge := FindChallengeById(cat, challengeId.value);
        if challenge.Some? {
          selected := challenge;
        } else {
          navigations := navigations + [Home];
        }
      } else {
        navigations := navigations + [Home];
      }
    }

    /** The effect that opens the all-complete modal, only for a visit that
        came from the landing page. */
    method CompletionEffect(fromLanding: bool)
      modifies this
      ensures showAllCompleteModal ==
        (old(showAllCompleteModal) ||
         (selected.Some? && fromLanding && AreAllChallengesCompleted(cat, progress.CompletedSet())))
      ensures selected == old(selected) && navigations == old(navigations)
      ensures showLevelModal == old(showLevelModal)
      ensures desktopSidebarOpen == old(desktopSidebarOpen) && storedDesktop == old(storedDesktop)
    {
      if selected.Some? && AreAllChallengesCompleted(cat, progress.CompletedSet()) {
        if fromLanding {
          showAllCompleteModal := true;
        }
      }
    }

    /** `handleLevelSelect`: goes to the level's first uncompleted challenge,
        without the `fromLanding` state, when there is one; the level modal
        closes either way. */
    method HandleLevelSelect(levelName: string)
      modifies this
      ensures var first := FirstUncompleted(cat, levelName, progress.CompletedSet());
        navigations == old(navigations) + (if first.Some? then [ChallengeAt(first.value.id, false)] else [])
      ensures !showLevelModal
      ensures selected == old(selected) && showAllCompleteModal == old(showAllCompleteModal)
      ensures desktopSidebarOpen == old(desktopSidebarOpen) && storedDesktop == old(storedDesktop)
    {
      var firstChallenge := FindFirstUncompletedChallenge(cat, levelName, progress.CompletedSet());
      if firstChallenge.Some? {
        navigations := navigations + [ChallengeAt(firstChallenge.value.id, false)];
      }
      showLevelModal := false;
    }

    /** `toggleDesktopSidebar`: negates the flag and stores the new value,
        which the next visit reads back. */
    method ToggleDesktopSidebar()
      modifies this
      ensures desktopSidebarOpen == !old(desktopSidebarOpen)
      ensures storedDesktop == Some(FlagText(desktopSidebarOpen))
      ensures ReadFlag(storedDesktop) == desktopSidebarOpen
      ensures selected == old(selected) && navigations == old(navigations)
      ensures showLevelModal == old(showLevelModal) && showAllCompleteModal == old(showAllCompleteModal)
    {
      var newState := !desktopSidebarOpen;
      desktopSidebarOpen := newState;
      storedDesktop := Some(FlagText(newState));
    }

    /** The desktop backdrop click and the desktop sidebar's close handler:
        the flag is cleared and `false` is stored, so the next visit reads
        it back closed. */
    method CloseDesktopSidebar()
      modifies this
      ensures !desktopSidebarOpen && storedDesktop == Some(FlagText(false))
      ensures !ReadFlag(storedDesktop)
      ensures selected == old(selected) && navigations == old(navigations)
      ensures showLevelModal == old(showLevelModal) && showAllCompleteModal == old(showAllCompleteModal)
    {
      desktopSidebarOpen := false;
      storedDesktop := Some(FlagText(false));
    }

    /** `handleLogoClick`: asks for `/`. */
    method HandleLogoClick()
      modifies this
      ensures navigations == old(navigations) + [Home]
      ensures selected == old(selected)
      ensures showLevelModal == old(showLevelModal) && showAllCompleteModal == old(showAllCompleteModal)
      ensures desktopSidebarOpen == old(desktopSidebarOpen) && storedDesktop == old(storedDesktop)
    {
      navigations := navigations + [Home];
    }

    /** `handleChallengeSelect`: asks for the chosen challenge's route,
        without the `fromLanding` state; the selection itself follows when
        the route changes (`RouteChanged`). */
    method HandleChallengeSelect(challenge: Challenge)
      modifies this
      ensures navigations == old(navigations) + [ChallengeAt(challenge.id, false)]
      ensures selected == old(selected)
      ensures showLevelModal == old(showLevelModal) && showAllCompleteModal == old(showAllCompleteModal)
      ensures desktopSidebarOpen == old(desktopSidebarOpen) && storedDesktop == old(storedDesktop)
    {
      navigations := navigations + [ChallengeAt(challenge.id, false)];
    }

    /** `handleCodeEvaluate`: with a selected challenge and a non-empty,
        all-passed result list, the challenge is marked completed and the
        all-complete modal opens when the old set plus this id covers the
        catalog; otherwise nothing changes. */
    method HandleCodeEvaluate(results: seq<TestResult>)
      requires progress.Valid()
      modifies this, progress
      ensures progress.Valid()
      ensures !(selected.Some? && AllPassed(results)) ==>
        && progress.completed == old(progress.completed) && progress.stored == old(progress.stored)
        && showAllCompleteModal == old(showAllCompleteModal)
      ensures selected.Some? && AllPassed(results) ==>
        && progress.completed == Added(old(progress.completed), selected.value.id)
        && progress.stored == Some(Encode(progress.completed))
        && progress.CompletedSet() == old(progress.CompletedSet()) + {selected.value.id}
        && showAllCompleteModal ==
           (old(showAllCompleteModal) ||
            AreAllChallengesCompleted(cat, old(progress.CompletedSet()) + {selected.value.id}))
      ensures selected == old(selected) && navigations == old(navigations)
      ensures showLevelModal == old(showLevelModal)
      ensures desktopSidebarOpen == old(desktopSidebarOpen) && storedDesktop == old(storedDesktop)
    {
      if selected.Some? && |results| > 0 && (forall k :: 0 <= k < |results| ==> results[k].passed) {
        var id := selected.value.id;
        var before := progress.CompletedSet();
        progress.MarkCompleted(id);
        var updatedCompleted := before + {id};
        if AreAllChallengesCompleted(cat, updatedCompleted) {
          showAllCompleteModal := true;
        }
      }
    }
  }

  /** The state of the landing page that its handlers change. */
  class LandingPage {
    const cat: Catalog
    const progress: Progress
    var showLevelModal: bool
    var navigations: seq<Route>

    constructor (cat: Catalog, progress: Progress)
      ensures this.cat == cat && this.progress == progress
      ensures !showLevelModal && navigations == []
    {
      this.cat := cat;
      this.progress := progress;
      showLevelModal := false;
      navigations := [];
    }

    /** `handleGetStarted`: opens the level modal. */
    method HandleGetStarted()
      modifies this
      ensures showLevelModal && navigations == old(navigations)
    {
      showLevelModal := true;
    }

    /** `handleLevelSelect`: goes to the level's first uncompleted challenge
        with the `fromLanding` state when there is one; the modal closes
        either way. */
    method HandleLevelSelect(levelName: string)
      modifies this
      ensures var first := FirstUncompleted(cat, levelName, progress.CompletedSet());
        navigations == old(navigations) + (if first.Some? then [ChallengeAt(first.value.id, true)] else [])
      ensures !showLevelModal
    {
      var firstChallenge := FindFirstUncompletedChallenge(cat, levelName, progress.CompletedSet());
      if firstChallenge.Some? {
        navigations := navigations + [ChallengeAt(firstChallenge.value.id, true)];
      }
      showLevelModal := false;
    }
  }
}
