/** The translation pipeline around the cache: `scheduleTranslateForNode`
    decides whether a visible message needs a request, `enqueue` chains the
    requests one after the other, and `waitForRateLimit` spaces them. The
    promise chain becomes a FIFO sequence of tasks, one step of `RunNext`
    runs the oldest task to completion, and the clock is an input. */
module Scheduling {
  import opened Wrappers
  import opened Text
  import opened Normalizer
  import opened Completion
  import opened Settings
  import opened LruCache

  /** What `readMessageMeta` yields for a message node; an empty `text`
      stands for a node it gives up on. */
  datatype Meta = Meta(nodeId: string, channelId: string, messageId: string, author: string, text: string)

  /** A queued translation: the cache key it fills and the message it is for. */
  datatype Task = Task(key: string, nodeId: string, author: string)

  /** How `scheduleTranslateForNode` ends. */
  datatype Scheduled =
    | NoMessage        // no meta or no text
    | AlreadyShown     // the node already carries a translation line
    | FromCache        // a cached translation was attached
    | AlreadyPending   // a task for the same key is queued
    | Enqueued         // a new task was queued

  /** One pass through `waitForRateLimit`: when the request went out and the
      interval in force then. */
  datatype Dispatch = Dispatch(at: int, interval: int)

  /** The cache keys of the queued tasks. */
  ghost function KeysOf(q: seq<Task>): set<string> {
    set t | t in q :: t.key
  }

  predicate DistinctKeys(q: seq<Task>) {
    forall i, j :: 0 <= i < j < |q| ==> q[i].key != q[j].key
  }

  /** Every dispatch comes at least the interval in force after the one
      before it, the first one after time 0. */
  predicate Spaced(d: seq<Dispatch>) {
    forall i :: 0 <= i < |d| ==> SpacedAt(d, i)
  }

  /** Dispatch `i` comes at least its interval after the one before it
      (after time 0 for the first). */
  predicate SpacedAt(d: seq<Dispatch>, i: nat)
    requires i < |d|
  {
    d[i].at >= (if i == 0 then 0 else d[i - 1].at) + d[i].interval
  }

  /** The queue holds the submitted tasks that have not run, in order, with
      distinct keys, and the pending keys are exactly the queued ones. */
  ghost predicate QueueKept(submitted: seq<Task>, finished: seq<Task>, queue: seq<Task>, pending: set<string>) {
    finished + queue == submitted && DistinctKeys(queue) && pending == KeysOf(queue)
  }

  /** The dispatches are spaced and the last one is the time last recorded
      (0 before any). */
  ghost predicate ClockKept(dispatches: seq<Dispatch>, lastRequestAt: int) {
    Spaced(dispatches) &&
    (dispatches != [] ==> dispatches[|dispatches| - 1].at == lastRequestAt) &&
    (dispatches == [] ==> lastRequestAt == 0)
  }

  /** Running the head task keeps the queue bookkeeping. */
  lemma DequeueKept(submitted: seq<Task>, finished: seq<Task>, queue: seq<Task>, pending: set<string>)
    requires QueueKept(submitted, finished, queue, pending) && queue != []
    ensures QueueKept(submitted, finished + [queue[0]], queue[1..], pending - {queue[0].key})
  {
    DequeueKeeps(queue);
    assert finished + [queue[0]] + queue[1..] == finished + queue;
  }

  /** The prefix, in Chinese, of the status line a failed translation reports. */
  const FailurePrefix := "翻译失败："

  class Scheduler {
    const cache: TranslationCache
    /** `pendingTranslationKeys`. */
    var pending: set<string>
    /** Work chained on `queue` that has not run yet, oldest first. */
    var queue: seq<Task>
    var lastRequestAt: int
    /** The translation lines attached so far: node id and text. */
    var shown: seq<(string, string)>
    /** The error status lines reported so far. */
    var errors: seq<string>
    /** Every task ever enqueued, and those that have run, in order. */
    ghost var submitted: seq<Task>
    ghost var finished: seq<Task>
    /** Every pass through the rate limiter, in order. */
    ghost var dispatches: seq<Dispatch>

    ghost predicate Valid()
      reads this, cache
    {
      cache.Valid() &&
      QueueKept(submitted, finished, queue, pending) &&
      ClockKept(dispatches, lastRequestAt)
    }

    /** The state after start-up: nothing pending, nothing queued, no request sent. */
    constructor (store: TranslationCache)
      requires store.Valid()
      ensures Valid()
      ensures cache == store && pending == {} && queue == [] && lastRequestAt == 0
      ensures shown == [] && errors == [] && submitted == [] && dispatches == []
    {
      cache := store;
      pending := {};
      queue := [];
      lastRequestAt := 0;
      shown := [];
      errors := [];
      submitted := [];
      finished := [];
      dispatches := [];
    }

    /** `scheduleTranslateForNode`, given whether the node already has a
        translation line and the language and model in force. The checks
        come in order: text, translation line, cache, pending key. */
    method Schedule(meta: Meta, hasLine: bool, language: string, model: string) returns (outcome: Scheduled)
      requires Valid()
      modifies this, cache
      ensures Valid()
      ensures var key := BuildCacheKey(meta.channelId, meta.messageId, language, model);
        var looked := Lookup(old(cache.Contents()), key);
        && (outcome == NoMessage <==> meta.text == [])
        && (outcome == AlreadyShown <==> meta.text != [] && hasLine)
        && (outcome == FromCache <==> meta.text != [] && !hasLine && looked.0 != [])
        && (outcome == AlreadyPending <==> meta.text != [] && !hasLine && looked.0 == [] && key in old(pending))
        && (outcome == Enqueued <==> meta.text != [] && !hasLine && looked.0 == [] && key !in old(pending))
        && cache.Contents() == (if outcome in {NoMessage, AlreadyShown} then old(cache.Contents()) else looked.1)
        && shown == old(shown) + (if outcome == FromCache then [(meta.nodeId, looked.0)] else [])
        && queue == old(queue) + (if outcome == Enqueued then [Task(key, meta.nodeId, meta.author)] else [])
        && pending == old(pending) + (if outcome == Enqueued then {key} else {})
      ensures cache.saved == old(cache.saved) && cache.saveScheduled == old(cache.saveScheduled)
      ensures errors == old(errors) && lastRequestAt == old(lastRequestAt) && dispatches == old(dispatches)
    {
      if meta.text == [] {
        return NoMessage;
      }
      var key := BuildCacheKey(meta.channelId, meta.messageId, language, model);
      if hasLine {
        return AlreadyShown;
      }
      var cached := cache.Get(key);
      if cached != [] {
        shown := shown + [(meta.nodeId, cached)];
        return FromCache;
      }
      if key in pending {
        return AlreadyPending;
      }
      var task := Task(key, meta.nodeId, meta.author);
      EnqueueKeeps(queue, task);
      pending := pending + {key};
      queue := queue + [task];
      submitted := submitted + [task];
      outcome := Enqueued;
    }

    /** `waitForRateLimit`, with the clock read before (`now`) and after
        (`after`) the sleep: the sleep is what is left of the interval, and
        the dispatch is recorded at the later reading. */
    method WaitForRateLimit(interval: int, now: int, after: int) returns (sleepMs: int)
      requires Valid()
      requires after >= now && after >= lastRequestAt + interval
      modifies this
      ensures Valid()
      ensures sleepMs >= 0 && now + sleepMs == Max(now, old(lastRequestAt) + interval)
      ensures lastRequestAt == after && lastRequestAt >= old(lastRequestAt) + interval
      ensures dispatches == old(dispatches) + [Dispatch(after, interval)]
      ensures pending == old(pending) && queue == old(queue) && shown == old(shown) && errors == old(errors)
      ensures submitted == old(submitted) && finished == old(finished)
    {
      var waitMs := interval - (now - lastRequestAt);
      sleepMs := if waitMs > 0 then waitMs else 0;
      SpacedAppend(dispatches, Dispatch(after, interval));
      lastRequestAt := after;
      dispatches := dispatches + [Dispatch(after, interval)];
    }

    /** One run of the oldest queued task: the rate limiter, then its body
        and then the key released whatever the body did. */
    method RunNext(endpoint: string, model: string, interval: int, maxEntries: int, reply: Reply, now: int, after: int)
      requires Valid() && queue != []
      requires after >= now && after >= lastRequestAt + interval
      modifies this, cache
      ensures Valid()
      ensures var task := old(queue)[0];
        var outcome := RequestOutcome(endpoint, model, reply);
        var translated := Translated(outcome, task.author);
        && queue == old(queue)[1..]
        && finished == old(finished) + [task]
        && pending == old(pending) - {task.key}
        && task.key !in pending
        && cache.Contents() == (if translated != [] then Put(old(cache.Contents()), task.key, translated, maxEntries) else old(cache.Contents()))
        && shown == old(shown) + (if translated != [] then [(task.nodeId, translated)] else [])
        && errors == old(errors) + (if outcome.Failure? then [FailurePrefix + Message(outcome.error)] else [])
        && cache.saveScheduled == (old(cache.saveScheduled) || translated != [])
      ensures cache.saved == old(cache.saved)
      ensures lastRequestAt == after && lastRequestAt >= old(lastRequestAt) + interval
      ensures dispatches == old(dispatches) + [Dispatch(after, interval)]
      ensures submitted == old(submitted)
    {
      var _ := WaitForRateLimit(interval, now, after);
      var task := queue[0];
      DequeueKept(submitted, finished, queue, pending);
      queue := queue[1..];
      finished := finished + [task];
      Perform(task, endpoint, model, maxEntries, reply);
      pending := pending - {task.key};
    }

    /** The body of a queued task: the request, normalization with the
        author, a cache write and a translation line only for a non-empty
        result, and an error line for a failed request. */
    method Perform(task: Task, endpoint: string, model: string, maxEntries: int, reply: Reply)
      requires cache.Valid()
      modifies this, cache
      ensures cache.Valid()
      ensures var outcome := RequestOutcome(endpoint, model, reply);
        var translated := Translated(outcome, task.author);
        && cache.Contents() == (if translated != [] then Put(old(cache.Contents()), task.key, translated, maxEntries) else old(cache.Contents()))
        && shown == old(shown) + (if translated != [] then [(task.nodeId, translated)] else [])
        && errors == old(errors) + (if outcome.Failure? then [FailurePrefix + Message(outcome.error)] else [])
        && cache.saveScheduled == (old(cache.saveScheduled) || translated != [])
      ensures cache.saved == old(cache.saved)
      ensures pending == old(pending) && queue == old(queue) && lastRequestAt == old(lastRequestAt)
      ensures submitted == old(submitted) && finished == old(finished) && dispatches == old(dispatches)
    {
      var outcome := RequestOutcome(endpoint, model, reply);
      if outcome.Success? {
        var translated := Translated(outcome, task.author);
        if translated != [] {
          cache.Set(task.key, translated, maxEntries);
          shown := shown + [(task.nodeId, translated)];
        }
      } else {
        errors := errors + [FailurePrefix + Message(outcome.error)];
      }
    }
  }

  /** The text a request outcome leaves to be cached and shown: the
      normalized reply, or nothing for a failed request. */
  function Translated(outcome: Result<string, Failure>, author: string): (t: string)
    ensures Sanitized(t)
    ensures outcome.Success? && Sanitize(outcome.value) != [] ==> t != []
    ensures outcome.Failure? ==> t == []
  {
    if outcome.Success? then NormalizeTranslation(outcome.value, author) else []
  }

  /** Recording a dispatch at least its interval after the last one keeps the log spaced. */
  lemma SpacedAppend(d: seq<Dispatch>, x: Dispatch)
    requires Spaced(d)
    requires x.at >= (if d == [] then 0 else d[|d| - 1].at) + x.interval
    ensures Spaced(d + [x])
  {
    var e := d + [x];
    forall i | 0 <= i < |e| ensures SpacedAt(e, i) {
      if i < |d| {
        assert SpacedAt(d, i);
      }
    }
  }

  /** Appending a task whose key is not queued keeps the keys distinct and adds its key. */
  lemma EnqueueKeeps(q: seq<Task>, t: Task)
    requires DistinctKeys(q) && t.key !in KeysOf(q)
    ensures DistinctKeys(q + [t])
    ensures KeysOf(q + [t]) == KeysOf(q) + {t.key}
  {
    forall i | 0 <= i < |q| ensures q[i].key != t.key {
      assert q[i] in q;
    }
  }

  /** Taking the head off a queue with distinct keys removes exactly its key. */
  lemma DequeueKeeps(q: seq<Task>)
    requires DistinctKeys(q) && q != []
    ensures DistinctKeys(q[1..])
    ensures KeysOf(q[1..]) == KeysOf(q) - {q[0].key}
  {
    forall t | t in q[1..] ensures t.key != q[0].key {
      var j :| 0 <= j < |q[1..]| && q[1..][j] == t;
      assert q[j + 1] == t;
    }
    forall t | t in q && t.key != q[0].key ensures t in q[1..] {
      var j :| 0 <= j < |q| && q[j] == t;
      assert j != 0;
      assert q[1..][j - 1] == t;
    }
  }

  /** In a spaced log, request `i` goes out no earlier than the sum of the
      intervals of requests `0` to `i`. */
  lemma {:induction false} SpacedAccumulates(d: seq<Dispatch>, i: nat)
    requires Spaced(d) && i < |d|
    ensures d[i].at >= SumIntervals(d, i)
  {
    assert SpacedAt(d, i);
    if i > 0 {
      SpacedAccumulates(d, i - 1);
    }
  }

  /** The intervals of the dispatches up to and including position `i`. */
  function SumIntervals(d: seq<Dispatch>, i: nat): int
    requires i < |d|
  {
    if i == 0 then d[0].interval else SumIntervals(d, i - 1) + d[i].interval
  }

  /** With a fixed interval, the n-th request (counting from 0) goes out no
      earlier than `(n + 1) * interval`. */
  lemma {:induction false} FixedIntervalSpacing(d: seq<Dispatch>, interval: int, i: nat)
    requires Spaced(d) && i < |d|
    requires forall k :: 0 <= k < |d| ==> d[k].interval == interval
    ensures d[i].at >= (i + 1) * interval
  {
    SpacedAccumulates(d, i);
    SumOfFixed(d, interval, i);
  }

  lemma {:induction false} SumOfFixed(d: seq<Dispatch>, interval: int, i: nat)
    requires i < |d|
    requires forall k :: 0 <= k < |d| ==> d[k].interval == interval
    ensures SumIntervals(d, i) == (i + 1) * interval
  {
    if i > 0 {
      SumOfFixed(d, interval, i - 1);
    }
  }
}
