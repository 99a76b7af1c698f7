/** The in-memory quiz session manager of backend/utils/quiz_manager.py:
    a question cache keyed by session, a FIFO queue of question indices,
    a per-session attempt history used as a stack, and the coordinator
    that hands out quizzes without repeating questions until the pool is
    used up. */
module QuizSessions {
  import opened Wrappers
  import opened Json
  import opened IndexSeqs
  import opened Selection
  import Text

  type SessionId = string

  // ---------------------------------------------------------------------
  // QuestionCache

  /** What `store_questions` keeps for a session (the timestamp is left out). */
  datatype CacheEntry = CacheEntry(questions: seq<Value>, metadata: Value, totalQuestions: nat)

  /** `metadata or {}`. */
  function StoredMetadata(metadata: Value): Value
  {
    if Truthy(metadata) then metadata else Obj(map[])
  }

  class QuestionCache {
    var cache: map<SessionId, CacheEntry>

    ghost predicate Valid()
      reads this
    {
      forall sid :: sid in cache ==> cache[sid].totalQuestions == |cache[sid].questions|
    }

    constructor()
      ensures Valid() && cache == map[]
    {
      cache := map[];
    }

    /** `store_questions`: replaces whatever the session had. */
    method StoreQuestions(sid: SessionId, questions: seq<Value>, metadata: Value := Null)
      requires Valid()
      modifies this
      ensures Valid()
      ensures cache == old(cache)[sid := CacheEntry(questions, StoredMetadata(metadata), |questions|)]
      ensures GetQuestions(sid) == questions
      ensures GetMetadata(sid) == StoredMetadata(metadata)
      ensures HasQuestions(sid) <==> questions != []
    {
      cache := cache[sid := CacheEntry(questions, StoredMetadata(metadata), |questions|)];
    }

    /** `get_questions`: the stored list, or [] for an unknown session. */
    function GetQuestions(sid: SessionId): (qs: seq<Value>)
      reads this
      ensures sid !in cache ==> qs == []
      ensures sid in cache ==> qs == cache[sid].questions
    {
      if sid in cache then cache[sid].questions else []
    }

    /** `has_questions`: an entry exists and its list is not empty. */
    function HasQuestions(sid: SessionId): (b: bool)
      reads this
      ensures b <==> GetQuestions(sid) != []
    {
      sid in cache && |cache[sid].questions| > 0
    }

    /** `get_metadata`: the stored metadata, or {} for an unknown session. */
    function GetMetadata(sid: SessionId): (m: Value)
      reads this
      ensures sid !in cache ==> m == Obj(map[])
      ensures sid in cache ==> m == cache[sid].metadata
    {
      if sid in cache then cache[sid].metadata else Obj(map[])
    }

    /** `clear_session`: forgets the session; a second call changes nothing. */
    method ClearSession(sid: SessionId)
      requires Valid()
      modifies this
      ensures Valid()
      ensures cache == old(cache) - {sid}
      ensures !HasQuestions(sid) && GetQuestions(sid) == [] && GetMetadata(sid) == Obj(map[])
    {
      if sid in cache {
        cache := cache - {sid};
      }
    }
  }

  // ---------------------------------------------------------------------
  // QuizQueue

  /** A FIFO queue over a `deque`. `originalSize` is the length it was
      built with; `Reset` does not update it, as in the source. */
  class QuizQueue<T> {
    var queue: seq<T>
    var originalSize: nat

    constructor(items: seq<T>)
      ensures queue == items && originalSize == |items|
    {
      queue := items;
      originalSize := |items|;
    }

    /** `dequeue`: the front element, or None when empty. */
    method Dequeue() returns (r: Option<T>)
      modifies this
      ensures old(queue) == [] ==> r == None && queue == []
      ensures old(queue) != [] ==> r == Some(old(queue)[0]) && queue == old(queue)[1..]
      ensures originalSize == old(originalSize)
    {
      if |queue| > 0 {
        r := Some(queue[0]);
        queue := queue[1..];
      } else {
        r := None;
      }
    }

    /** `enqueue`: appends at the back. */
    method Enqueue(x: T)
      modifies this
      ensures queue == old(queue) + [x]
      ensures originalSize == old(originalSize)
    {
      queue := queue + [x];
    }

    /** `peek`: the front element without removing it. */
    function Peek(): (r: Option<T>)
      reads this
      ensures r.None? <==> queue == []
      ensures r.Some? ==> r.value == queue[0]
    {
      if |queue| > 0 then Some(queue[0]) else None
    }

    function Size(): (n: nat)
      reads this
      ensures n == |queue|
    {
      |queue|
    }

    function IsEmpty(): (b: bool)
      reads this
      ensures b <==> Size() == 0
    {
      |queue| == 0
    }

    /** `reset`: replaces the contents wholesale. */
    method Reset(items: seq<T>)
      modifies this
      ensures queue == items
      ensures originalSize == old(originalSize)
    {
      queue := items;
    }
  }

  /** Elements leave the queue in the order they entered it: enqueueing
      any sequence into an empty queue and dequeueing until it is empty
      gives the sequence back. */
  method DrainInOrder<T>(items: seq<T>) returns (out: seq<T>)
    ensures out == items
  {
    var q := new QuizQueue<T>([]);
    var i := 0;
    while i < |items|
      invariant 0 <= i <= |items|
      invariant q.queue == items[..i]
    {
      q.Enqueue(items[i]);
      i := i + 1;
    }
    out := [];
    while !q.IsEmpty()
      invariant out + q.queue == items
      decreases |q.queue|
    {
      var next := q.Dequeue();
      out := out + [next.value];
    }
  }

  // ---------------------------------------------------------------------
  // QuizHistory

  /** One completed attempt; `timing` holds the optional timing fields that
      were present in the submitted data. */
  datatype HistoryEntry = HistoryEntry(quizNumber: nat, questions: Value, score: Value, total: Value,
                                       timing: map<string, Value>)

  const TimingKeys: set<string> := {"start_time", "end_time", "total_time", "per_question_time"}

  /** The entry `push` builds from the submitted `quiz_data`. */
  function MakeEntry(quizNumber: nat, quizData: map<string, Value>): (e: HistoryEntry)
    ensures e.quizNumber == quizNumber
    ensures e.questions == Get(quizData, "questions", Arr([]))
    ensures e.score == Get(quizData, "score", Num(0))
    ensures e.total == Get(quizData, "total", Num(0))
    ensures e.timing.Keys == TimingKeys * quizData.Keys
    ensures forall k :: k in e.timing ==> e.timing[k] == quizData[k]
  {
    HistoryEntry(quizNumber,
                 Get(quizData, "questions", Arr([])),
                 Get(quizData, "score", Num(0)),
                 Get(quizData, "total", Num(0)),
                 map k | k in TimingKeys && k in quizData :: quizData[k])
  }

  class QuizHistory {
    var history: map<SessionId, seq<HistoryEntry>>

    /** Every session's entries are numbered 1, 2, 3, ... in order. */
    ghost predicate Valid()
      reads this
    {
      forall sid, i :: sid in history && 0 <= i < |history[sid]| ==> history[sid][i].quizNumber == i + 1
    }

    constructor()
      ensures Valid() && history == map[]
    {
      history := map[];
    }

    /** `get_all`: the session's entries in push order, [] if none. */
    function GetAll(sid: SessionId): (r: seq<HistoryEntry>)
      reads this
      ensures sid !in history ==> r == []
      ensures sid in history ==> r == history[sid]
      ensures Valid() ==> forall i :: 0 <= i < |r| ==> r[i].quizNumber == i + 1
    {
      if sid in history then history[sid] else []
    }

    /** `size`. */
    function Size(sid: SessionId): (n: nat)
      reads this
      ensures n == |GetAll(sid)|
    {
      if sid in history then |history[sid]| else 0
    }

    /** `push`: appends an entry numbered one more than the current size. */
    method Push(sid: SessionId, quizData: map<string, Value>)
      requires Valid()
      modifies this
      ensures Valid()
      ensures history == old(history)[sid := old(GetAll(sid)) + [MakeEntry(old(Size(sid)) + 1, quizData)]]
      ensures Size(sid) == old(Size(sid)) + 1
    {
      var entries := if sid in history then history[sid] else [];
      history := history[sid := entries + [MakeEntry(|entries| + 1, quizData)]];
    }

    /** `pop`: removes and returns the last entry, None when there is none. */
    method Pop(sid: SessionId) returns (r: Option<HistoryEntry>)
      requires Valid()
      modifies this
      ensures Valid()
      ensures old(GetAll(sid)) == [] ==> r == None && history == old(history)
      ensures old(GetAll(sid)) != [] ==>
                && r == Some(old(GetAll(sid))[old(Size(sid)) - 1])
                && history == old(history)[sid := old(GetAll(sid))[..old(Size(sid)) - 1]]
    {
      if sid in history && |history[sid]| > 0 {
        var entries := history[sid];
        r := Some(entries[|entries| - 1]);
        history := history[sid := entries[..|entries| - 1]];
      } else {
        r := None;
      }
    }

    /** `peek`: the last entry without removing it. */
    function Peek(sid: SessionId): (r: Option<HistoryEntry>)
      reads this
      ensures r.None? <==> Size(sid) == 0
      ensures r.Some? ==> r.value == GetAll(sid)[Size(sid) - 1]
    {
      if sid in history && |history[sid]| > 0 then Some(history[sid][|history[sid]| - 1]) else None
    }
  }

  // ---------------------------------------------------------------------
  // QuizManager

  /** A queue element `{'index': i}`. */
  datatype QueueItem = QueueItem(index: nat)

  function QueueIndices(items: seq<QueueItem>): (indices: seq<nat>)
    ensures |indices| == |items|
    ensures forall j :: 0 <= j < |items| ==> indices[j] == items[j].index
  {
    seq(|items|, j requires 0 <= j < |items| => items[j].index)
  }

  /** `[{'index': idx} for idx in indices]`. */
  function Wrap(indices: seq<nat>): (items: seq<QueueItem>)
    ensures QueueIndices(items) == indices
  {
    var items := seq(|indices|, j requires 0 <= j < |indices| => QueueItem(indices[j]));
    assert QueueIndices(items) == indices;
    items
  }

  const NoQuestionsError: string := "No questions found in cache. Please upload a file first."

  datatype UploadResult = UploadResult(totalQuestions: nat, sessionId: SessionId, message: string)

  datatype QuizResult =
    | QuizFailure(error: string)
    | QuizSuccess(questions: seq<Value>, totalQuestions: nat, quizNumber: nat, questionsRemainingInPool: int)

  datatype SessionStats = SessionStats(totalQuizzesTaken: nat, totalQuestionsInPool: nat, questionsUsed: nat,
                                       questionsRemaining: int, quizHistory: seq<HistoryEntry>,
                                       averageScore: real)

  /** Without repeats, the used set of a session that holds `used` is
      cleared before drawing: nothing is unused, or too little for the
      capped request. */
  predicate PoolExhausted(poolSize: nat, numQuestions: int, used: set<nat>)
  {
    |Unused(poolSize, used)| == 0 || NeedsReset(poolSize, numQuestions, used)
  }

  /** The clear on an empty unused set (before the queue is built) and the
      clear on a short unused set (before drawing) amount to one clear
      under `PoolExhausted`. */
  lemma ClearsCombine(poolSize: nat, numQuestions: int, before: set<nat>)
    ensures var afterFirst := if |Unused(poolSize, before)| == 0 then {} else before;
            && (if NeedsReset(poolSize, numQuestions, afterFirst) then {} else afterFirst)
               == (if PoolExhausted(poolSize, numQuestions, before) then {} else before)
            && (!PoolExhausted(poolSize, numQuestions, before) ==>
                  afterFirst == before && !NeedsReset(poolSize, numQuestions, afterFirst))
  {
    UnusedOfNothing(poolSize);
  }

  /** The indices a queue created during generation is shuffled from. */
  function FirstCandidates(poolSize: nat, allowRepeats: bool, used: set<nat>): (r: seq<nat>)
    ensures Distinct(r)
    ensures forall i :: i in r ==> i < poolSize
    ensures poolSize > 0 ==> |r| > 0
    ensures allowRepeats ==> |r| == poolSize
    ensures !allowRepeats && |Unused(poolSize, used)| > 0 ==> forall i :: i in r ==> i !in used
    ensures forall i :: i in r <==> 0 <= i < poolSize && (allowRepeats || |Unused(poolSize, used)| == 0 || i !in used)
  {
    if allowRepeats || |Unused(poolSize, used)| == 0 then Range(poolSize)
    else
      var r := Unused(poolSize, used);
      assert forall i :: i in r <==> 0 <= i < poolSize && i !in used;
      r
  }

  /** A score as `sum` adds it: numbers as they are, booleans as 0 or 1,
      anything else raises TypeError. */
  function ScoreValue(v: Value): Result<int, PyError>
  {
    match v
    case Num(n) => Success(n)
    case Bool(b) => Success(if b then 1 else 0)
    case _ => Failure(TypeError)
  }

  /** `sum(q.get('score', 0) for q in history)`. */
  function ScoreSum(entries: seq<HistoryEntry>): (r: Result<int, PyError>)
    ensures r.Success? <==> forall e :: e in entries ==> ScoreValue(e.score).Success?
  {
    if entries == [] then Success(0)
    else
      var first :- ScoreValue(entries[0].score);
      var rest :- ScoreSum(entries[1..]);
      Success(first + rest)
  }

  /** The drawing half of `generate_new_quiz`: selects the indices, marks
      them used (without repeats), looks the questions up and shuffles them.
      `picked` names the pool positions drawn. */
  method DrawQuestions(pool: seq<Value>, numQuestions: int, allowRepeats: bool, used0: set<nat>)
    returns (questions: seq<Value>, used: set<nat>, ghost picked: seq<nat>)
    ensures |picked| == QuizSize(numQuestions, |pool|)
    ensures Distinct(picked)
    ensures forall j :: 0 <= j < |picked| ==> picked[j] < |pool|
    ensures multiset(questions) == multiset(Pick(pool, picked))
    ensures |questions| == |picked|
    ensures forall q :: q in questions ==> q in pool
    ensures allowRepeats ==> used == used0
    ensures !allowRepeats ==>
              used == (if NeedsReset(|pool|, numQuestions, used0) then {} else used0) + (set i | i in picked)
    ensures !allowRepeats && !NeedsReset(|pool|, numQuestions, used0) ==>
              forall i :: i in picked ==> i !in used0
    ensures used0 <= Below(|pool|) ==> used <= Below(|pool|) && |used| <= |pool|
  {
    var selected;
    ghost var attempts;
    selected, used, attempts := SelectIndices(|pool|, numQuestions, allowRepeats, used0);
    forall j | 0 <= j < |selected| ensures selected[j] < |pool| {
      assert selected[j] in selected;
    }
    if used0 <= Below(|pool|) {
      assert used <= Below(|pool|);
      BoundedCard(used, |pool|);
    }
    questions := Pick(pool, selected);
    questions := Shuffle(questions);
    assert forall q :: q in questions ==> q in pool by {
      forall q | q in questions ensures q in pool {
        var j :| 0 <= j < |selected| && Pick(pool, selected)[j] == q;
      }
    }
    picked := selected;
  }

  class QuizManager {
    const questionCache: QuestionCache
    const quizHistory: QuizHistory
    var quizQueues: map<SessionId, QuizQueue<QueueItem>>
    var usedQuestions: map<SessionId, set<nat>>

    /** Used indices are always positions in the session's current pool,
        and a session with a cached pool always has a queue and a used set. */
    ghost predicate Valid()
      reads this, questionCache, quizHistory
    {
      && questionCache.Valid()
      && quizHistory.Valid()
      && (forall sid :: sid in usedQuestions ==> usedQuestions[sid] <= Below(|questionCache.GetQuestions(sid)|))
      && (forall sid :: questionCache.HasQuestions(sid) ==> sid in quizQueues && sid in usedQuestions)
    }

    /** The session's used set, empty when none is tracked. */
    function UsedOf(sid: SessionId): set<nat>
      reads this
    {
      if sid in usedQuestions then usedQuestions[sid] else {}
    }

    constructor()
      ensures Valid()
      ensures fresh(questionCache) && fresh(quizHistory)
      ensures questionCache.cache == map[] && quizHistory.history == map[]
      ensures quizQueues == map[] && usedQuestions == map[]
    {
      questionCache := new QuestionCache();
      quizHistory := new QuizHistory();
      quizQueues := map[];
      usedQuestions := map[];
    }

    /** `upload_and_cache_questions`: caches the pool, seeds the queue with a
        shuffle of all indices and starts an empty used set. */
    method UploadAndCacheQuestions(sid: SessionId, questions: seq<Value>, metadata: Value := Null)
      returns (r: UploadResult)
      requires Valid()
      modifies this, questionCache
      ensures Valid()
      ensures questionCache.cache ==
                old(questionCache.cache)[sid := CacheEntry(questions, StoredMetadata(metadata), |questions|)]
      ensures questionCache.GetQuestions(sid) == questions
      ensures usedQuestions == old(usedQuestions)[sid := {}]
      ensures sid in quizQueues && fresh(quizQueues[sid])
      ensures quizQueues == old(quizQueues)[sid := quizQueues[sid]]
      ensures multiset(QueueIndices(quizQueues[sid].queue)) == multiset(Range(|questions|))
      ensures quizQueues[sid].originalSize == |questions|
      ensures unchanged(quizHistory)
      ensures r.totalQuestions == |questions| && r.sessionId == sid
      ensures r.message == "Cached " + Text.NatToString(|questions|) + " questions. Ready to generate quizzes."
    {
      questionCache.StoreQuestions(sid, questions, metadata);
      var indices := Shuffle(Range(|questions|));
      var queue := new QuizQueue(Wrap(indices));
      quizQueues := quizQueues[sid := queue];
      usedQuestions := usedQuestions[sid := {}];
      r := UploadResult(|questions|, sid,
                        "Cached " + Text.NatToString(|questions|) + " questions. Ready to generate quizzes.");
    }

    /** `generate_new_quiz`. `picked` names the pool positions the returned
        questions come from. Without a non-empty cached pool it fails and
        changes nothing. Otherwise it returns min(num_questions, pool size)
        questions from distinct positions, in any order; without repeats,
        those positions are now used, and unless the pool was exhausted none
        of them was used before. */
    method GenerateNewQuiz(sid: SessionId, numQuestions: int := 10, allowRepeats: bool := false)
      returns (r: QuizResult, ghost picked: seq<nat>)
      requires Valid()
      modifies this
      ensures Valid()
      ensures !questionCache.HasQuestions(sid) ==>
                && r == QuizFailure(NoQuestionsError)
                && usedQuestions == old(usedQuestions)
                && quizQueues == old(quizQueues)
      ensures questionCache.HasQuestions(sid) ==>
                var pool := questionCache.GetQuestions(sid);
                && r.QuizSuccess?
                && |picked| == QuizSize(numQuestions, |pool|)
                && Distinct(picked)
                && (forall j :: 0 <= j < |picked| ==> picked[j] < |pool|)
                && multiset(r.questions) == multiset(Pick(pool, picked))
                && r.totalQuestions == |r.questions| == |picked|
                && r.quizNumber == quizHistory.Size(sid) + 1
      ensures questionCache.HasQuestions(sid) ==>
                forall q :: q in r.questions ==> q in questionCache.GetQuestions(sid)
      ensures questionCache.HasQuestions(sid) && allowRepeats ==>
                && usedQuestions == old(usedQuestions)[sid := old(UsedOf(sid))]
                && r.questionsRemainingInPool == |questionCache.GetQuestions(sid)|
      ensures questionCache.HasQuestions(sid) && !allowRepeats ==>
                var poolSize := |questionCache.GetQuestions(sid)|;
                var before := old(UsedOf(sid));
                && usedQuestions == old(usedQuestions)[sid :=
                     (if PoolExhausted(poolSize, numQuestions, before) then {} else before) + set i | i in picked]
                && r.questionsRemainingInPool == poolSize - |usedQuestions[sid]|
                && 0 <= r.questionsRemainingInPool <= poolSize
                && (!PoolExhausted(poolSize, numQuestions, before) ==> forall i :: i in picked ==> i !in before)
      ensures quizQueues == old(quizQueues)
    {
      if !questionCache.HasQuestions(sid) {
        r := QuizFailure(NoQuestionsError);
        picked := [];
        return;
      }
      var allQuestions := questionCache.GetQuestions(sid);
      var poolSize: nat := |allQuestions|;
      ghost var before := UsedOf(sid);
      // The set is written back once the quiz is drawn. A session with a
      // cached pool always has a used set (Valid), so the source's creation
      // of an empty one never happens.
      var used := UsedOf(sid);

      var available: seq<nat>;
      if allowRepeats {
        available := Range(poolSize);
      } else {
        available := Unused(poolSize, used);
      }
      if |available| == 0 {
        if allowRepeats {
          available := Range(poolSize);
        } else {
          // Pool exhausted: start over.
          used := {};
          available := Range(poolSize);
        }
      }

      assert available == FirstCandidates(poolSize, allowRepeats, before);
      if sid !in quizQueues {
        // Building a queue from `available` here cannot happen: a session
        // with a cached pool always has one (Valid).
        assert false;
      }

      ClearsCombine(poolSize, numQuestions, before);
      var selectedQuestions;
      selectedQuestions, used, picked := DrawQuestions(allQuestions, numQuestions, allowRepeats, used);
      usedQuestions := usedQuestions[sid := used];
      var remaining := if !allowRepeats then poolSize - |used| else poolSize;
      r := QuizSuccess(selectedQuestions, |selectedQuestions|, quizHistory.Size(sid) + 1, remaining);
      forall s | s in usedQuestions ensures usedQuestions[s] <= Below(|questionCache.GetQuestions(s)|) {
        if s != sid {
          assert usedQuestions[s] == old(usedQuestions)[s];
        }
      }
    }

    /** `submit_quiz_results`: pushes the attempt and returns its number. */
    method SubmitQuizResults(sid: SessionId, quizData: map<string, Value>) returns (quizNumber: nat)
      requires Valid()
      modifies quizHistory
      ensures Valid()
      ensures quizHistory.GetAll(sid) ==
                old(quizHistory.GetAll(sid)) + [MakeEntry(old(quizHistory.Size(sid)) + 1, quizData)]
      ensures forall other :: other != sid ==> quizHistory.GetAll(other) == old(quizHistory.GetAll(other))
      ensures quizNumber == quizHistory.Size(sid) == old(quizHistory.Size(sid)) + 1
    {
      quizHistory.Push(sid, quizData);
      quizNumber := quizHistory.Size(sid);
    }

    /** `get_session_stats`. Raises only when some score cannot be summed;
        the average is exact (Python rounds it to two places). */
    function GetSessionStats(sid: SessionId): (r: Result<SessionStats, PyError>)
      reads this, questionCache, quizHistory
      ensures r.Success? <==> forall e :: e in quizHistory.GetAll(sid) ==> ScoreValue(e.score).Success?
      ensures r.Success? ==>
                && r.value.totalQuizzesTaken == quizHistory.Size(sid)
                && r.value.quizHistory == quizHistory.GetAll(sid)
                && r.value.totalQuestionsInPool == |questionCache.GetQuestions(sid)|
                && r.value.questionsUsed == |UsedOf(sid)|
                && r.value.questionsRemaining == r.value.totalQuestionsInPool - r.value.questionsUsed
                && (quizHistory.GetAll(sid) == [] ==> r.value.averageScore == 0.0)
                && (quizHistory.GetAll(sid) != [] ==>
                      r.value.averageScore * (quizHistory.Size(sid) as real)
                      == ScoreSum(quizHistory.GetAll(sid)).value as real)
    {
      var history := quizHistory.GetAll(sid);
      var totalQuestions := |questionCache.GetQuestions(sid)|;
      var usedCount := |UsedOf(sid)|;
      var sum :- ScoreSum(history);
      var average := if history != [] then (sum as real) / (|history| as real) else 0.0;
      Success(SessionStats(|history|, totalQuestions, usedCount, totalQuestions - usedCount, history, average))
    }

    /** `reset_session`. Keeping the cache empties an existing used set and
        reshuffles an existing queue when a pool is cached; otherwise the
        pool, the used set and the queue are deleted. History is never
        touched. */
    method ResetSession(sid: SessionId, keepCache: bool := true) returns (cachePreserved: bool)
      requires Valid()
      modifies this, questionCache
      ensures Valid()
      ensures cachePreserved == keepCache
      ensures unchanged(quizHistory)
      ensures keepCache ==>
                && questionCache.cache == old(questionCache.cache)
                && usedQuestions == (if sid in old(usedQuestions) then old(usedQuestions)[sid := {}]
                                     else old(usedQuestions))
      ensures keepCache && sid in old(quizQueues) && questionCache.HasQuestions(sid) ==>
                && sid in quizQueues && fresh(quizQueues[sid])
                && quizQueues == old(quizQueues)[sid := quizQueues[sid]]
                && multiset(QueueIndices(quizQueues[sid].queue)) ==
                   multiset(Range(|questionCache.GetQuestions(sid)|))
                && quizQueues[sid].originalSize == |questionCache.GetQuestions(sid)|
      ensures keepCache && !(sid in old(quizQueues) && questionCache.HasQuestions(sid)) ==>
                quizQueues == old(quizQueues)
      ensures !keepCache ==>
                && questionCache.cache == old(questionCache.cache) - {sid}
                && !questionCache.HasQuestions(sid)
                && usedQuestions == old(usedQuestions) - {sid}
                && quizQueues == old(quizQueues) - {sid}
    {
      if keepCache {
        if sid in usedQuestions {
          usedQuestions := usedQuestions[sid := {}];
        }
        if sid in quizQueues && questionCache.HasQuestions(sid) {
          var questions := questionCache.GetQuestions(sid);
          var indices := Shuffle(Range(|questions|));
          var queue := new QuizQueue(Wrap(indices));
          quizQueues := quizQueues[sid := queue];
        }
      } else {
        questionCache.ClearSession(sid);
        // Removing an absent key leaves the map as it was.
        usedQuestions := usedQuestions - {sid};
        quizQueues := quizQueues - {sid};
      }
      // Valid, one session at a time: only `sid` changed.
      forall s | s in usedQuestions
        ensures usedQuestions[s] <= Below(|questionCache.GetQuestions(s)|)
      {
        if s != sid {
          assert usedQuestions[s] == old(usedQuestions)[s];
          assert questionCache.GetQuestions(s) == old(questionCache.GetQuestions(s));
        }
      }
      forall s | questionCache.HasQuestions(s)
        ensures s in quizQueues && s in usedQuestions
      {
        if s != sid {
          assert old(questionCache.HasQuestions(s));
        }
      }
      cachePreserved := keepCache;
    }
  }

  /** In a valid manager, the remaining count that stats report lies between
      zero and the pool size. */
  lemma StatsRemainingInRange(m: QuizManager, sid: SessionId)
    requires m.Valid()
    ensures m.GetSessionStats(sid).Success? ==>
              0 <= m.GetSessionStats(sid).value.questionsRemaining <= m.GetSessionStats(sid).value.totalQuestionsInPool
  {
    BoundedCard(m.UsedOf(sid), |m.questionCache.GetQuestions(sid)|);
  }

  /** Drawing `picked` from the unused part of the pool shrinks that part
      by exactly |picked|. */
  lemma UnusedAfterDraw(poolSize: nat, before: set<nat>, picked: seq<nat>)
    requires Distinct(picked)
    requires forall i :: i in picked ==> i < poolSize && i !in before
    ensures |Unused(poolSize, before + set i | i in picked)| == |Unused(poolSize, before)| - |picked|
  {
    var drawn := set i | i in picked;
    UnusedCount(poolSize, before);
    UnusedCount(poolSize, before + drawn);
    DistinctCard(picked);
    assert Below(poolSize) - (before + drawn) == (Below(poolSize) - before) - drawn;
    assert drawn <= Below(poolSize) - before;
  }

  /** Two quizzes in a row without repeats share no question as long as the
      unused part of the pool covers both requests. */
  method ConsecutiveQuizzes(m: QuizManager, sid: SessionId, first: int, second: int)
    returns (r1: QuizResult, r2: QuizResult, ghost picked1: seq<nat>, ghost picked2: seq<nat>)
    requires m.Valid()
    requires m.questionCache.HasQuestions(sid)
    requires first >= 1 && second >= 1
    requires |Unused(|m.questionCache.GetQuestions(sid)|, m.UsedOf(sid))| >=
               QuizSize(first, |m.questionCache.GetQuestions(sid)|) + QuizSize(second, |m.questionCache.GetQuestions(sid)|)
    modifies m
    ensures m.Valid()
    ensures r1.QuizSuccess? && r2.QuizSuccess?
    ensures forall i :: i in picked1 ==> i !in picked2
    ensures forall i :: i in picked1 + picked2 ==> i in m.UsedOf(sid)
  {
    ghost var poolSize := |m.questionCache.GetQuestions(sid)|;
    ghost var before := m.UsedOf(sid);
    assert !PoolExhausted(poolSize, first, before);
    r1, picked1 := m.GenerateNewQuiz(sid, first, false);
    ghost var middle := m.UsedOf(sid);
    UnusedAfterDraw(poolSize, before, picked1);
    assert !PoolExhausted(poolSize, second, middle);
    r2, picked2 := m.GenerateNewQuiz(sid, second, false);
  }
}
