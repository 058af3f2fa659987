/**
 * Local persistence as a state transformer. The browser's key-value store
 * holds four namespaces: saved quizzes, attempts, the auto-saved draft and
 * the settings. Reading a namespace that is missing or whose JSON cannot be
 * parsed yields the empty list or the default settings, never an error.
 * Identifiers, clocks and locale-formatted dates are parameters.
 */
module QuizStorage {
  import opened Options
  import opened QuizTypes
  import JsMath

  const MaxSavedQuizzes: nat := 20
  const MaxAttempts: nat := 100

  datatype SavedQuiz = SavedQuiz(
    id: string,
    name: string,
    data: seq<Question>,
    createdAt: int,
    lastUsed: int,
    timesPlayed: int,
    bestScore: Option<int>)

  datatype QuizAttempt = QuizAttempt(
    quizId: string,
    quizName: string,
    result: QuizResult,
    timestamp: int,
    timeSpent: int,
    examMode: bool,
    timerUsed: Option<int>)

  datatype Settings = Settings(
    darkMode: bool,
    defaultExamMode: bool,
    defaultTimerMinutes: int,
    autoSave: bool,
    soundEnabled: bool)

  /** A partial settings object: the fields present in stored or passed JSON. */
  datatype SettingsPatch = SettingsPatch(
    darkMode: Option<bool>,
    defaultExamMode: Option<bool>,
    defaultTimerMinutes: Option<int>,
    autoSave: Option<bool>,
    soundEnabled: Option<bool>)

  const DefaultSettings: Settings := Settings(false, false, 30, true, false)

  /** One namespace of the key-value store. */
  datatype Slot<T> = Absent | Unreadable | Stored(value: T)

  datatype Store = Store(
    quizzes: Slot<seq<SavedQuiz>>,
    attempts: Slot<seq<QuizAttempt>>,
    current: Option<string>,
    settings: Slot<SettingsPatch>)

  /** The list a namespace holds; missing or unparseable text reads as empty. */
  function Contents<T>(slot: Slot<seq<T>>): (r: seq<T>)
    ensures slot.Stored? ==> r == slot.value
    ensures !slot.Stored? ==> r == []
  {
    match slot
    case Stored(v) => v
    case _ => []
  }

  // ---------------------------------------------------------------------
  // Generic list helpers
  // ---------------------------------------------------------------------

  /** `[x, ...xs].slice(0, cap)`. */
  function CappedPrepend<T>(x: T, xs: seq<T>, cap: nat): (r: seq<T>)
    requires cap >= 1
    ensures |r| == JsMath.Min(cap, |xs| + 1)
    ensures r[0] == x
    ensures forall i :: 1 <= i < |r| ==> r[i] == xs[i - 1]
  {
    ([x] + xs)[..JsMath.Min(cap, |xs| + 1)]
  }

  /** `xs.filter(keep)`. */
  function Filter<T(!new)>(xs: seq<T>, keep: T -> bool): (r: seq<T>)
    ensures |r| <= |xs|
    ensures forall x :: x in r <==> x in xs && keep(x)
    ensures (forall i :: 0 <= i < |xs| ==> keep(xs[i])) ==> r == xs
  {
    if |xs| == 0 then []
    else (if keep(xs[0]) then [xs[0]] else []) + Filter(xs[1..], keep)
  }

  /** Filtering keeps relative order: it distributes over concatenation. */
  lemma {:induction false} FilterConcat<T(!new)>(a: seq<T>, b: seq<T>, keep: T -> bool)
    ensures Filter(a + b, keep) == Filter(a, keep) + Filter(b, keep)
  {
    if |a| > 0 {
      assert (a + b)[1..] == a[1..] + b;
      FilterConcat(a[1..], b, keep);
    } else {
      assert a + b == b;
    }
  }

  /** Filtering first by a weaker condition changes nothing. */
  lemma {:induction false} FilterImplied<T(!new)>(xs: seq<T>, weak: T -> bool, strong: T -> bool)
    requires forall x :: strong(x) ==> weak(x)
    ensures Filter(Filter(xs, weak), strong) == Filter(xs, strong)
  {
    if |xs| > 0 {
      FilterImplied(xs[1..], weak, strong);
      var ys := Filter(xs, weak);
      if weak(xs[0]) {
        assert ys == [xs[0]] + Filter(xs[1..], weak);
        assert ys[0] == xs[0] && ys[1..] == Filter(xs[1..], weak);
        assert Filter(ys, strong) == (if strong(xs[0]) then [xs[0]] else []) + Filter(ys[1..], strong);
      } else {
        assert ys == Filter(xs[1..], weak);
      }
    }
  }

  /** Filtering by two conditions that exclude each other leaves nothing. */
  lemma {:induction false} FilterDisjoint<T(!new)>(xs: seq<T>, first: T -> bool, second: T -> bool)
    requires forall x :: !(first(x) && second(x))
    ensures Filter(Filter(xs, first), second) == []
  {
    if |xs| > 0 {
      FilterDisjoint(xs[1..], first, second);
      var ys := Filter(xs, first);
      if first(xs[0]) {
        assert ys == [xs[0]] + Filter(xs[1..], first);
        assert ys[1..] == Filter(xs[1..], first);
      } else {
        assert ys == Filter(xs[1..], first);
      }
    }
  }

  // ---------------------------------------------------------------------
  // Saved quizzes
  // ---------------------------------------------------------------------

  /** The saved list; a missing or unparseable namespace reads as empty. */
  function GetSavedQuizzes(st: Store): (r: seq<SavedQuiz>)
    ensures st.quizzes.Stored? ==> r == st.quizzes.value
    ensures !st.quizzes.Stored? ==> r == []
  {
    Contents(st.quizzes)
  }

  /** The name a quiz is saved under; an empty name gets a dated default. */
  function QuizName(name: string, dateLabel: string): (r: string)
    ensures name != "" ==> r == name
    ensures name == "" ==> r == "Quiz " + dateLabel
  {
    if name != "" then name else "Quiz " + dateLabel
  }

  /**
   * Saving a quiz: the new record, never played, goes first and the list is
   * cut to the twenty most recent. Nothing else in the store changes.
   */
  function SaveQuiz(st: Store, name: string, data: seq<Question>, id: string, now: int, dateLabel: string)
    : (r: (Store, SavedQuiz))
    ensures r.1 == SavedQuiz(id, QuizName(name, dateLabel), data, now, now, 0, None)
    ensures var list := GetSavedQuizzes(r.0);
      && |list| == JsMath.Min(MaxSavedQuizzes, |GetSavedQuizzes(st)| + 1)
      && list[0] == r.1
      && forall i :: 1 <= i < |list| ==> list[i] == GetSavedQuizzes(st)[i - 1]
    ensures r.0 == st.(quizzes := r.0.quizzes)
  {
    var quiz := SavedQuiz(id, QuizName(name, dateLabel), data, now, now, 0, None);
    (st.(quizzes := Stored(CappedPrepend(quiz, GetSavedQuizzes(st), MaxSavedQuizzes))), quiz)
  }

  /** `find` by id: the first record with that id. */
  function FindQuiz(list: seq<SavedQuiz>, id: string): (r: Option<SavedQuiz>)
    ensures r.None? <==> forall i :: 0 <= i < |list| ==> list[i].id != id
    ensures r.Some? ==> r.value in list && r.value.id == id
    ensures r.Some? ==> exists i :: 0 <= i < |list| && list[i] == r.value
                                   && forall j :: 0 <= j < i ==> list[j].id != id
  {
    if |list| == 0 then None
    else if list[0].id == id then Some(list[0])
    else
      var r := FindQuiz(list[1..], id);
      if r.Some? then
        var k :| 0 <= k < |list[1..]| && list[1..][k] == r.value
                 && forall j :: 0 <= j < k ==> list[1..][j].id != id;
        assert list[k + 1] == r.value && forall j :: 0 <= j < k + 1 ==> list[j].id != id;
        r
      else r
  }

  /** Loading a saved quiz by id: the first saved record with that id. */
  function LoadQuizById(st: Store, id: string): (r: Option<SavedQuiz>)
    ensures r.None? <==> forall q :: q in GetSavedQuizzes(st) ==> q.id != id
    ensures r.Some? ==> r.value in GetSavedQuizzes(st) && r.value.id == id
    ensures r.Some? ==> exists i :: 0 <= i < |GetSavedQuizzes(st)| && GetSavedQuizzes(st)[i] == r.value
                                   && forall j :: 0 <= j < i ==> GetSavedQuizzes(st)[j].id != id
  {
    FindQuiz(GetSavedQuizzes(st), id)
  }

  /** A quiz just saved is found by its id, even if the id was in use. */
  lemma LoadAfterSave(st: Store, name: string, data: seq<Question>, id: string, now: int, dateLabel: string)
    ensures var (st', quiz) := SaveQuiz(st, name, data, id, now, dateLabel);
      LoadQuizById(st', id) == Some(quiz)
  {
  }

  /** Deleting a quiz and the attempts that reference it. */
  function DeleteSavedQuiz(st: Store, id: string): (r: Store)
    ensures forall q :: q in GetSavedQuizzes(r) <==> q in GetSavedQuizzes(st) && q.id != id
    ensures forall a :: a in GetQuizAttempts(r, None) <==> a in GetQuizAttempts(st, None) && a.quizId != id
    ensures r.current == st.current && r.settings == st.settings
  {
    Store(
      Stored(Filter(GetSavedQuizzes(st), (q: SavedQuiz) => q.id != id)),
      Stored(Filter(Contents(st.attempts), (a: QuizAttempt) => a.quizId != id)),
      st.current,
      st.settings)
  }

  /** Deleting an id nobody uses leaves both lists as they were. */
  lemma DeleteAbsent(st: Store, id: string)
    requires forall i :: 0 <= i < |GetSavedQuizzes(st)| ==> GetSavedQuizzes(st)[i].id != id
    requires forall i :: 0 <= i < |GetQuizAttempts(st, None)| ==> GetQuizAttempts(st, None)[i].quizId != id
    ensures GetSavedQuizzes(DeleteSavedQuiz(st, id)) == GetSavedQuizzes(st)
    ensures GetQuizAttempts(DeleteSavedQuiz(st, id), None) == GetQuizAttempts(st, None)
  {
  }

  /** After deletion no attempt of the quiz remains. */
  lemma DeleteRemovesAttempts(st: Store, id: string)
    requires id != ""
    ensures GetQuizAttempts(DeleteSavedQuiz(st, id), Some(id)) == []
    ensures LoadQuizById(DeleteSavedQuiz(st, id), id).None?
  {
    FilterDisjoint(Contents(st.attempts), (a: QuizAttempt) => a.quizId != id, (a: QuizAttempt) => a.quizId == id);
  }

  /** Deletion is invisible to every other quiz and its attempts. */
  lemma DeleteKeepsOthers(st: Store, id: string, other: string)
    requires other != id && other != ""
    ensures GetQuizAttempts(DeleteSavedQuiz(st, id), Some(other)) == GetQuizAttempts(st, Some(other))
    ensures LoadQuizById(DeleteSavedQuiz(st, id), other) == LoadQuizById(st, other)
  {
    FilterImplied(Contents(st.attempts), (a: QuizAttempt) => a.quizId != id, (a: QuizAttempt) => a.quizId == other);
    FindAfterFilter(GetSavedQuizzes(st), id, other);
  }

  /** Removing one id does not change which record another id finds. */
  lemma {:induction false} FindAfterFilter(list: seq<SavedQuiz>, id: string, other: string)
    requires other != id
    ensures FindQuiz(Filter(list, (q: SavedQuiz) => q.id != id), other) == FindQuiz(list, other)
  {
    if |list| > 0 {
      FindAfterFilter(list[1..], id, other);
      var kept := Filter(list, (q: SavedQuiz) => q.id != id);
      var keptRest := Filter(list[1..], (q: SavedQuiz) => q.id != id);
      if list[0].id == id {
        assert kept == keptRest;
      } else {
        assert kept == [list[0]] + keptRest;
        assert kept[0] == list[0] && kept[1..] == keptRest;
      }
    }
  }

  /** `bestScore` after a play: the larger of the old best and the new score. */
  function BestAfter(best: Option<int>, score: Option<int>): (r: Option<int>)
    ensures score.None? ==> r == best
    ensures score.Some? ==> r.Some? && r.value >= score.value
    ensures score.Some? && best.Some? ==> r.value >= best.value
    ensures r.Some? ==> r == best || r == score
  {
    match score
    case None => best
    case Some(s) => if best.None? || s > best.value then Some(s) else best
  }

  /** The record after one more play. */
  function Played(q: SavedQuiz, score: Option<int>, now: int): (r: SavedQuiz)
    ensures r.id == q.id && r.name == q.name && r.data == q.data && r.createdAt == q.createdAt
    ensures r.timesPlayed == q.timesPlayed + 1
    ensures r.lastUsed == now
    ensures r.bestScore == BestAfter(q.bestScore, score)
  {
    q.(lastUsed := now, timesPlayed := q.timesPlayed + 1, bestScore := BestAfter(q.bestScore, score))
  }

  /**
   * Recording a play: every record with the id is played once more; every
   * other record, and the order, stay as they were.
   */
  function UpdateQuizUsage(st: Store, id: string, score: Option<int>, now: int): (r: Store)
    ensures var before, after := GetSavedQuizzes(st), GetSavedQuizzes(r);
      && |after| == |before|
      && forall i :: 0 <= i < |before| ==>
        if before[i].id == id then
          && after[i].id == id && after[i].data == before[i].data && after[i].name == before[i].name
          && after[i].createdAt == before[i].createdAt
          && after[i].timesPlayed == before[i].timesPlayed + 1
          && after[i].lastUsed == now
          && after[i].bestScore == BestAfter(before[i].bestScore, score)
        else after[i] == before[i]
    ensures r == st.(quizzes := r.quizzes)
  {
    var before := GetSavedQuizzes(st);
    st.(quizzes := Stored(seq(|before|, i requires 0 <= i < |before| =>
      if before[i].id == id then Played(before[i], score, now) else before[i])))
  }

  /** After a play the quiz is found with one more play and an updated best. */
  lemma LoadAfterUsage(st: Store, id: string, score: Option<int>, now: int)
    ensures LoadQuizById(UpdateQuizUsage(st, id, score, now), id) ==
      match LoadQuizById(st, id)
      case None => None
      case Some(q) => Some(Played(q, score, now))
  {
    var before, after := GetSavedQuizzes(st), GetSavedQuizzes(UpdateQuizUsage(st, id, score, now));
    FindMapped(before, after, id, score, now);
  }

  lemma {:induction false} FindMapped(before: seq<SavedQuiz>, after: seq<SavedQuiz>, id: string, score: Option<int>, now: int)
    requires |after| == |before|
    requires forall i :: 0 <= i < |before| ==>
      after[i] == if before[i].id == id then Played(before[i], score, now) else before[i]
    ensures FindQuiz(after, id) ==
      match FindQuiz(before, id)
      case None => None
      case Some(q) => Some(Played(q, score, now))
  {
    if |before| > 0 && before[0].id != id {
      FindMapped(before[1..], after[1..], id, score, now);
    }
  }

  // ---------------------------------------------------------------------
  // Attempts
  // ---------------------------------------------------------------------

  /**
   * Recording an attempt: it goes first and the history is cut to the
   * hundred most recent. Nothing else in the store changes.
   */
  function SaveAttempt(st: Store, quizId: string, quizName: string, result: QuizResult,
                       timeSpent: int, examMode: bool, timerUsed: Option<int>, now: int): (r: Store)
    ensures var before, after := GetQuizAttempts(st, None), GetQuizAttempts(r, None);
      && |after| == JsMath.Min(MaxAttempts, |before| + 1)
      && after[0] == QuizAttempt(quizId, quizName, result, now, timeSpent, examMode, timerUsed)
      && forall i :: 1 <= i < |after| ==> after[i] == before[i - 1]
    ensures r == st.(attempts := r.attempts)
  {
    var attempt := QuizAttempt(quizId, quizName, result, now, timeSpent, examMode, timerUsed);
    st.(attempts := Stored(CappedPrepend(attempt, Contents(st.attempts), MaxAttempts)))
  }

  /** Whether `getQuizAttempts` filters: only for a present, non-empty id. */
  predicate Filters(quizId: Option<string>) {
    quizId.Some? && quizId.value != ""
  }

  /**
   * The attempt history, newest first; with a non-empty id, only that
   * quiz's attempts, in the same order.
   */
  function GetQuizAttempts(st: Store, quizId: Option<string>): (r: seq<QuizAttempt>)
    ensures !Filters(quizId) ==> r == Contents(st.attempts)
    ensures Filters(quizId) ==>
      forall a :: a in r <==> a in Contents(st.attempts) && a.quizId == quizId.value
  {
    var all := Contents(st.attempts);
    if Filters(quizId) then Filter(all, (a: QuizAttempt) => a.quizId == quizId.value) else all
  }

  /**
   * While the cap is not reached, a quiz's history after recording one of
   * its attempts is that attempt followed by the earlier ones, in order.
   */
  lemma AttemptsAfterSave(st: Store, quizId: string, quizName: string, result: QuizResult,
                          timeSpent: int, examMode: bool, timerUsed: Option<int>, now: int)
    requires quizId != ""
    requires |GetQuizAttempts(st, None)| < MaxAttempts
    ensures GetQuizAttempts(SaveAttempt(st, quizId, quizName, result, timeSpent, examMode, timerUsed, now), Some(quizId))
         == [QuizAttempt(quizId, quizName, result, now, timeSpent, examMode, timerUsed)] + GetQuizAttempts(st, Some(quizId))
  {
    var all := Contents(st.attempts);
    var a := QuizAttempt(quizId, quizName, result, now, timeSpent, examMode, timerUsed);
    assert Contents(SaveAttempt(st, quizId, quizName, result, timeSpent, examMode, timerUsed, now).attempts) == [a] + all;
    FilterConcat([a], all, (x: QuizAttempt) => x.quizId == quizId);
  }

  /** Removing the attempt history; every other namespace is untouched. */
  function ClearAllAttempts(st: Store): (r: Store)
    ensures GetQuizAttempts(r, None) == []
    ensures GetSavedQuizzes(r) == GetSavedQuizzes(st)
    ensures GetCurrentQuiz(r) == GetCurrentQuiz(st) && GetSettings(r) == GetSettings(st)
  {
    st.(attempts := Absent)
  }

  // ---------------------------------------------------------------------
  // Draft auto-save
  // ---------------------------------------------------------------------

  function SaveCurrentQuiz(st: Store, text: string): (r: Store)
    ensures GetCurrentQuiz(r) == Some(text)
    ensures r == st.(current := r.current)
  {
    st.(current := Some(text))
  }

  /** The auto-saved draft, if one is stored. */
  function GetCurrentQuiz(st: Store): (r: Option<string>)
    ensures r.Some? <==> st.current.Some?
    ensures r.Some? ==> r.value == st.current.value
  {
    st.current
  }

  function ClearCurrentQuiz(st: Store): (r: Store)
    ensures GetCurrentQuiz(r).None?
    ensures r == st.(current := None)
  {
    st.(current := None)
  }

  // ---------------------------------------------------------------------
  // Settings
  // ---------------------------------------------------------------------

  /** `{ ...base, ...patch }`: the fields present in the patch win. */
  function Apply(base: Settings, patch: SettingsPatch): (r: Settings)
    ensures r.darkMode == (if patch.darkMode.Some? then patch.darkMode.value else base.darkMode)
    ensures r.defaultExamMode == (if patch.defaultExamMode.Some? then patch.defaultExamMode.value else base.defaultExamMode)
    ensures r.defaultTimerMinutes == (if patch.defaultTimerMinutes.Some? then patch.defaultTimerMinutes.value else base.defaultTimerMinutes)
    ensures r.autoSave == (if patch.autoSave.Some? then patch.autoSave.value else base.autoSave)
    ensures r.soundEnabled == (if patch.soundEnabled.Some? then patch.soundEnabled.value else base.soundEnabled)
  {
    Settings(
      Pick(patch.darkMode, base.darkMode),
      Pick(patch.defaultExamMode, base.defaultExamMode),
      Pick(patch.defaultTimerMinutes, base.defaultTimerMinutes),
      Pick(patch.autoSave, base.autoSave),
      Pick(patch.soundEnabled, base.soundEnabled))
  }

  function Pick<T>(o: Option<T>, fallback: T): T {
    match o
    case Some(v) => v
    case None => fallback
  }

  /** The complete settings object, as `JSON.stringify` writes it. */
  function Whole(s: Settings): SettingsPatch {
    SettingsPatch(Some(s.darkMode), Some(s.defaultExamMode), Some(s.defaultTimerMinutes),
                  Some(s.autoSave), Some(s.soundEnabled))
  }

  const NoChange: SettingsPatch := SettingsPatch(None, None, None, None, None)

  /** Defaults overridden by what is stored; defaults alone when nothing
      readable is stored. */
  function GetSettings(st: Store): (r: Settings)
    ensures !st.settings.Stored? ==> r == DefaultSettings
    ensures st.settings.Stored? ==> r == Apply(DefaultSettings, st.settings.value)
  {
    match st.settings
    case Stored(p) => Apply(DefaultSettings, p)
    case _ => DefaultSettings
  }

  /** Merging a patch into the current settings and storing the result. */
  function SaveSettings(st: Store, patch: SettingsPatch): (r: Store)
    ensures r == st.(settings := r.settings)
  {
    st.(settings := Stored(Whole(Apply(GetSettings(st), patch))))
  }

  /** Saving a patch then reading yields the old settings with exactly the
      patched fields replaced. */
  lemma SettingsRoundTrip(st: Store, patch: SettingsPatch)
    ensures GetSettings(SaveSettings(st, patch)) == Apply(GetSettings(st), patch)
    ensures GetSettings(SaveSettings(st, NoChange)) == GetSettings(st)
  {
  }

  // ---------------------------------------------------------------------
  // Clearing
  // ---------------------------------------------------------------------

  /** Removing all four namespaces: every read returns its empty default. */
  function ClearAllData(st: Store): (r: Store)
    ensures GetSavedQuizzes(r) == [] && GetQuizAttempts(r, None) == []
    ensures GetCurrentQuiz(r).None? && GetSettings(r) == DefaultSettings
  {
    Store(Absent, Absent, None, Absent)
  }

  // ---------------------------------------------------------------------
  // Repeated saves
  // ---------------------------------------------------------------------

  /** Prepending each item in turn, capping at every step. */
  function PushAll<T>(xs: seq<T>, items: seq<T>, cap: nat): seq<T>
    requires cap >= 1
    decreases |items|
  {
    if |items| == 0 then xs
    else PushAll(CappedPrepend(items[0], xs, cap), items[1..], cap)
  }

  function Reverse<T>(xs: seq<T>): (r: seq<T>)
    ensures |r| == |xs|
    ensures forall i :: 0 <= i < |xs| ==> r[i] == xs[|xs| - 1 - i]
  {
    if |xs| == 0 then [] else Reverse(xs[1..]) + [xs[0]]
  }

  /**
   * Pushing items one at a time leaves the newest first and keeps only the
   * `cap` most recent of everything pushed.
   */
  lemma {:induction false} PushAllKeepsNewest<T>(xs: seq<T>, items: seq<T>, cap: nat)
    requires cap >= 1 && |xs| <= cap
    ensures var all := Reverse(items) + xs;
      PushAll(xs, items, cap) == all[..JsMath.Min(cap, |all|)]
    decreases |items|
  {
    if |items| > 0 {
      var ys := CappedPrepend(items[0], xs, cap);
      PushAllKeepsNewest(ys, items[1..], cap);
      var all := Reverse(items) + xs;
      var all' := Reverse(items[1..]) + ys;
      var n := JsMath.Min(cap, |all|);
      assert JsMath.Min(cap, |all'|) == n;
      forall i | 0 <= i < n
        ensures all'[i] == all[i]
      {
        if i < |items| - 1 {
          assert all'[i] == items[1..][|items| - 2 - i];
        } else {
          assert all'[i] == ys[i - (|items| - 1)];
        }
      }
      assert all'[..n] == all[..n];
      assert PushAll(xs, items, cap) == PushAll(ys, items[1..], cap);
    }
  }

  /** Saving twenty-five quizzes into an empty store keeps the twenty newest. */
  lemma TwentyFiveSaves(records: seq<SavedQuiz>)
    requires |records| == 25
    ensures PushAll([], records, MaxSavedQuizzes) == Reverse(records)[..20]
    ensures PushAll([], records, MaxSavedQuizzes)[0] == records[24]
    ensures records[4] !in PushAll([], records, MaxSavedQuizzes)[..] || records[4] in records[5..]
  {
    PushAllKeepsNewest([], records, MaxSavedQuizzes);
    assert Reverse(records) + [] == Reverse(records);
    var kept := Reverse(records)[..20];
    if records[4] in kept {
      var i :| 0 <= i < 20 && kept[i] == records[4];
      assert records[24 - i] == records[4];
      assert records[5..][19 - i] == records[4];
    }
  }
}
