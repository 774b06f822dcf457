/** The history store: a counter of 32 bits, and a hash from decimal handles to JSON texts. */
module History {
  import opened Text
  import opened Decimal

  /** Handles are of type `uint32_t`. */
  const HANDLE_LIMIT := 0x1_0000_0000

  // ---------------------------------------------------------------------------------------------
  // The values of a hash, with their multiplicities
  // ---------------------------------------------------------------------------------------------

  ghost function Values<K(!new)>(m: map<K, string>): multiset<string>
    decreases |m|
  {
    if m == map[] then multiset{}
    else
      var k :| k in m;
      multiset{m[k]} + Values(m - {k})
  }

  lemma ValuesPick<K(!new)>(m: map<K, string>) returns (k: K)
    requires m != map[]
    ensures k in m && Values(m) == multiset{m[k]} + Values(m - {k})
  {
    k :| k in m && Values(m) == multiset{m[k]} + Values(m - {k});
  }

  /** The values do not depend on the order in which keys are taken. */
  lemma {:induction false} ValuesRemove<K(!new)>(m: map<K, string>, k: K)
    requires k in m
    ensures Values(m) == multiset{m[k]} + Values(m - {k})
    decreases |m|
  {
    hide Values;
    var j := ValuesPick(m);
    if j != k {
      var both := m - {j} - {k};
      assert both == m - {k} - {j};
      ValuesRemove(m - {j}, k);
      ValuesRemove(m - {k}, j);
      assert Values(m) == multiset{m[j]} + (multiset{m[k]} + Values(both));
      assert Values(m - {k}) == multiset{m[j]} + Values(both);
    }
  }

  lemma ValuesInsert<K(!new)>(m: map<K, string>, k: K, v: string)
    requires k !in m
    ensures Values(m[k := v]) == Values(m) + multiset{v}
  {
    ValuesRemove(m[k := v], k);
    assert m[k := v] - {k} == m;
  }

  // ---------------------------------------------------------------------------------------------
  // The store
  // ---------------------------------------------------------------------------------------------

  /** The contents of a store. */
  datatype Store = Store(counter: nat, history: map<string, string>)

  const EMPTY_STORE := Store(0, map[])

  function Generated(s: Store): Store {
    s.(counter := (s.counter + 1) % HANDLE_LIMIT)
  }

  function SavedAs(s: Store, handle: nat, json: string): Store {
    s.(history := s.history[ToDecimal(handle) := json])
  }

  class HistoryStorage {
    var counter: nat
    var history: map<string, string>

    function View(): Store
      reads this
    {
      Store(counter, history)
    }

    predicate Valid()
      reads this
    {
      counter < HANDLE_LIMIT
    }

    constructor ()
      ensures Valid() && View() == EMPTY_STORE
    {
      counter, history := 0, map[];
    }

    /** In every run that has led to this store, one more job gets its handle. */
    method GenerateHandle() returns (handle: nat)
      requires Valid()
      modifies this`counter
      ensures Valid() && handle == old(counter) && View() == Generated(old(View()))
      ensures forall r: Run :: r.store == old(View()) ==>
        Next(r, Generate).store == View() && Next(r, Generate).handles == r.handles + [handle]
    {
      handle := counter;
      counter := (counter + 1) % HANDLE_LIMIT;
    }

    /** In every run that has led to this store, the job with this handle saves its text. */
    method Save(handle: nat, json: string) returns (ok: bool)
      modifies this`history
      ensures ok && View() == SavedAs(old(View()), handle, json)
      ensures forall r: Run, job: nat ::
        r.store == old(View()) && Possible(r, Event.Save(job, json)) && r.handles[job] == handle ==>
          Next(r, Event.Save(job, json)).store == View()
    {
      history := history[ToDecimal(handle) := json];
      ok := true;
    }

    method GetAll() returns (ok: bool, records: map<string, string>)
      ensures ok && records == history
    {
      ok, records := true, history;
    }
  }

  /** Going through a hash in whatever order it has: every value is visited once. */
  method ListValues(records: map<string, string>) returns (values: seq<string>)
    ensures multiset(values) == Values(records)
  {
    hide Values;
    NoValues();
    values := [];
    var rest := records;
    while rest != map[]
      invariant multiset(values) + Values(rest) == Values(records)
      decreases |rest|
    {
      var k :| k in rest;
      ValuesRemove(rest, k);
      values := values + [rest[k]];
      rest := rest - {k};
    }
  }

  // ---------------------------------------------------------------------------------------------
  // Runs: any interleaving of jobs that take a handle and later save under it
  // ---------------------------------------------------------------------------------------------

  datatype Event = Generate | Save(job: nat, json: string)

  /** The store, the handle of each job in the order of their generation, who has saved, and what. */
  datatype Run = Run(store: Store, handles: seq<nat>, saved: set<nat>, log: seq<string>)

  const EMPTY_RUN := Run(EMPTY_STORE, [], {}, [])

  /** A job saves once, after it has got its handle. */
  predicate Possible(r: Run, e: Event) {
    e.Save? ==> e.job < |r.handles| && e.job !in r.saved
  }

  function Next(r: Run, e: Event): Run
    requires Possible(r, e)
  {
    match e
    case Generate => r.(store := Generated(r.store), handles := r.handles + [r.store.counter])
    case Save(job, json) =>
      r.(store := SavedAs(r.store, r.handles[job], json), saved := r.saved + {job}, log := r.log + [json])
  }

  /** The run after these events, or None if one of them was not possible. */
  function Execute(events: seq<Event>): Option<Run> {
    if events == [] then Some(EMPTY_RUN)
    else
      var before := Execute(events[..|events| - 1]);
      var e := events[|events| - 1];
      if before.Some? && Possible(before.value, e) then Some(Next(before.value, e)) else None
  }

  predicate Distinct(handles: seq<nat>) {
    forall i, j :: 0 <= i < j < |handles| ==> handles[i] != handles[j]
  }

  /** Handles count up and wrap around. */
  predicate Counting(r: Run) {
    && r.store.counter == |r.handles| % HANDLE_LIMIT
    && (forall k :: 0 <= k < |r.handles| ==> r.handles[k] == k % HANDLE_LIMIT)
    && (forall k :: k in r.saved ==> k < |r.handles|)
  }

  /** No two jobs that have saved have numbers that are equal modulo 2^32: none share a handle. */
  predicate Apart(r: Run) {
    forall j, k :: j in r.saved && k in r.saved && j != k ==> j % HANDLE_LIMIT != k % HANDLE_LIMIT
  }

  /** The keys are those of the jobs that saved, and no key was used twice as long as these are apart. */
  ghost predicate Agrees(r: Run)
    requires forall k :: k in r.saved ==> k < |r.handles|
  {
    && (forall key :: key in r.store.history <==> exists k :: k in r.saved && key == ToDecimal(r.handles[k]))
    && |r.log| == |r.saved|
    && (Apart(r) ==> Values(r.store.history) == multiset(r.log))
    && (!Apart(r) ==> |r.store.history| < |r.log|)
    && |r.store.history| <= |r.log|
  }

  lemma GenerateAgrees(r: Run)
    requires Counting(r) && Agrees(r)
    ensures Counting(Next(r, Generate)) && Agrees(Next(r, Generate))
  {
    hide Values, ToDecimal;
    NextCounting(r, Generate);
    var after := Next(r, Generate);
    assert forall k :: k in r.saved ==> after.handles[k] == r.handles[k];
  }

  /** A save under a key that is new, or under one that another job has used. */
  lemma SaveAgrees(r: Run, job: nat, json: string)
    requires Possible(r, Save(job, json)) && Counting(r) && Agrees(r)
    ensures Agrees(Next(r, Save(job, json)))
  {
    hide Values, ToDecimal, Apart;
    var history, key := r.store.history, ToDecimal(r.handles[job]);
    SaveApart(r, job, json);
    SaveKeys(r, job, json);
    InsertSize(history, key, json);
    assert |r.saved + {job}| == |r.saved| + 1;
    if key !in history && Apart(r) {
      ValuesInsert(history, key, json);
      assert multiset(r.log + [json]) == multiset(r.log) + multiset{json};
    }
  }

  lemma InsertSize<K(!new)>(m: map<K, string>, k: K, v: string)
    ensures |m[k := v]| == if k in m then |m| else |m| + 1
  {
    assert m[k := v].Keys == m.Keys + {k};
    assert |m.Keys| == |m| && |m[k := v].Keys| == |m[k := v]|;
  }

  lemma SaveApart(r: Run, job: nat, json: string)
    requires Possible(r, Save(job, json)) && Counting(r) && Agrees(r)
    ensures Apart(Next(r, Save(job, json))) <==> Apart(r) && ToDecimal(r.handles[job]) !in r.store.history
  {
    hide Values, ToDecimal;
    var key, after := ToDecimal(r.handles[job]), Next(r, Save(job, json));
    forall k | k in r.saved
      ensures ToDecimal(r.handles[k]) == key <==> k % HANDLE_LIMIT == job % HANDLE_LIMIT
    {
      ToDecimalInjective(r.handles[k], r.handles[job]);
    }
    assert job in after.saved;
    assert forall k :: k in r.saved ==> k in after.saved;
  }

  lemma SaveKeys(r: Run, job: nat, json: string)
    requires Possible(r, Save(job, json)) && Counting(r) && Agrees(r)
    ensures var after := Next(r, Save(job, json));
      forall key :: key in after.store.history <==> exists k :: k in after.saved && key == ToDecimal(after.handles[k])
  {
    hide Values, ToDecimal;
    var after := Next(r, Save(job, json));
    assert job in after.saved;
    forall key
      ensures key in after.store.history <==> exists k :: k in after.saved && key == ToDecimal(after.handles[k])
    {
      if key in r.store.history {
        var k :| k in r.saved && key == ToDecimal(r.handles[k]);
        assert k in after.saved && after.handles[k] == r.handles[k];
      }
    }
  }

  lemma {:induction false} ExecuteInvariant(events: seq<Event>)
    requires Execute(events).Some?
    ensures Counting(Execute(events).value) && Agrees(Execute(events).value)
  {
    if events == [] {
    } else {
      hide Agrees, Next, Values;
      ExecuteInvariant(events[..|events| - 1]);
      var before := Execute(events[..|events| - 1]).value;
      NextCounting(before, events[|events| - 1]);
      match events[|events| - 1]
      case Generate => GenerateAgrees(before);
      case Save(job, json) => SaveAgrees(before, job, json);
    }
  }

  lemma NextCounting(r: Run, e: Event)
    requires Possible(r, e) && Counting(r)
    ensures Counting(Next(r, e))
  {
    if e.Generate? {
      WrapNext(|r.handles|);
    }
  }

  lemma WrapNext(n: nat)
    ensures (n % HANDLE_LIMIT + 1) % HANDLE_LIMIT == (n + 1) % HANDLE_LIMIT
  {
  }

  lemma {:induction false} ValuesSize<K(!new)>(m: map<K, string>)
    ensures |Values(m)| == |m|
    decreases |m|
  {
    if m != map[] {
      var k := ValuesPick(m);
      ValuesSize(m - {k});
    }
  }

  /**
   * In every run, the handles are pairwise distinct exactly as long as no more than 2^32 of them have
   * been generated. The stored texts are exactly those that were saved, as often as they were saved,
   * if and only if no two jobs that have saved are 2^32 or a multiple of it apart; up to 2^32 handles
   * none are.
   */
  lemma HistoryAgreesWithLog(events: seq<Event>)
    requires Execute(events).Some?
    ensures var r := Execute(events).value;
      && (forall k :: k in r.saved ==> k < |r.handles|)
      && (Distinct(r.handles) <==> |r.handles| <= 4294967296)
      && (Values(r.store.history) == multiset(r.log) <==> Apart(r))
      && (|r.handles| <= 4294967296 ==> Values(r.store.history) == multiset(r.log))
  {
    hide Execute, Values;
    ExecuteInvariant(events);
    var r := Execute(events).value;
    HandlesDistinct(r);
    ValuesSize(r.store.history);
    assert |multiset(r.log)| == |r.log|;
  }

  lemma HandlesDistinct(r: Run)
    requires Counting(r)
    ensures Distinct(r.handles) <==> |r.handles| <= HANDLE_LIMIT
    ensures Distinct(r.handles) ==> Apart(r)
  {
    if |r.handles| <= HANDLE_LIMIT {
      assert forall k :: 0 <= k < |r.handles| ==> r.handles[k] == k % HANDLE_LIMIT == k;
    } else {
      assert r.handles[0] == 0 % HANDLE_LIMIT == 0;
      assert r.handles[HANDLE_LIMIT] == HANDLE_LIMIT % HANDLE_LIMIT == 0;
    }
  }

  /** Once two jobs share a handle, the text saved first is lost. */
  lemma SecondSaveOverwrites(r: Run, j: nat, first: string, k: nat, second: string)
    requires Possible(r, Save(j, first)) && Possible(r, Save(k, second)) && j != k
    requires r.handles[j] == r.handles[k]
    ensures Next(Next(r, Save(j, first)), Save(k, second)).store == Next(r, Save(k, second)).store
  {
  }

  function Generations(n: nat): seq<Event> {
    if n == 0 then [] else Generations(n - 1) + [Generate]
  }

  lemma {:induction false} GenerationsExecute(n: nat)
    ensures var r := Execute(Generations(n));
      r.Some? && |r.value.handles| == n && r.value.saved == {} && r.value.log == [] && r.value.store.history == map[]
  {
    if n > 0 {
      GenerationsExecute(n - 1);
      ExecuteLast(Generations(n - 1), Generate);
    }
  }

  /** A run with one generation more than there are handles: its first job's text is lost. */
  lemma OverwriteReached(first: string, second: string) returns (events: seq<Event>)
    ensures var r := Execute(events);
      && r.Some? && |r.value.handles| == 4294967297 && r.value.log == [first, second]
      && Values(r.value.store.history) == multiset{second} != multiset(r.value.log)
  {
    hide Execute, Generations, Next, Values;
    var before := Generations(HANDLE_LIMIT + 1);
    GenerationsExecute(HANDLE_LIMIT + 1);
    ExecuteInvariant(before);
    var r := Execute(before).value;
    var e1, e2 := Save(0, first), Save(HANDLE_LIMIT, second);
    FirstAndLastShare(r);
    TwoSaves(r, 0, first, HANDLE_LIMIT, second);
    ExecuteLast(before, e1);
    ExecuteLast(before + [e1], e2);
    events := before + [e1] + [e2];
    assert |multiset([first, second])| == 2 && |multiset{second}| == 1;
  }

  lemma FirstAndLastShare(r: Run)
    requires Counting(r) && |r.handles| == HANDLE_LIMIT + 1
    ensures r.handles[0] == r.handles[HANDLE_LIMIT]
  {
    assert r.handles[0] == 0 % HANDLE_LIMIT == 0 && r.handles[HANDLE_LIMIT] == HANDLE_LIMIT % HANDLE_LIMIT == 0;
  }

  lemma TwoSaves(r: Run, j: nat, first: string, k: nat, second: string)
    requires j != k && j < |r.handles| && k < |r.handles| && r.handles[j] == r.handles[k]
    requires r.saved == {} && r.log == [] && r.store.history == map[]
    ensures Possible(r, Save(j, first)) && Possible(Next(r, Save(j, first)), Save(k, second))
    ensures var after := Next(Next(r, Save(j, first)), Save(k, second));
      && after.handles == r.handles && after.log == [first, second]
      && Values(after.store.history) == multiset{second}
  {
    hide Values, ToDecimal;
    SecondSaveOverwrites(r, j, first, k, second);
    var key := ToDecimal(r.handles[k]);
    ValuesInsert(map[], key, second);
    NoValues();
    assert multiset{} + multiset{second} == multiset{second};
  }

  lemma NoValues()
    ensures Values<string>(map[]) == multiset{}
  {
  }

  // ---------------------------------------------------------------------------------------------
  // Predictions handled one after another, as the event loop of one server does
  // ---------------------------------------------------------------------------------------------

  /** One prediction: a fresh handle is taken, and the text stored under it. */
  function AfterJob(s: Store, json: string): Store {
    SavedAs(Generated(s), s.counter, json)
  }

  /** The store after predictions with these texts, from an empty store. */
  function Stored(jsons: seq<string>): Store {
    if jsons == [] then EMPTY_STORE else AfterJob(Stored(jsons[..|jsons| - 1]), jsons[|jsons| - 1])
  }

  function Jobs(jsons: seq<string>): seq<Event> {
    if jsons == [] then []
    else
      var n := |jsons| - 1;
      Jobs(jsons[..n]) + [Generate] + [Save(n, jsons[n])]
  }

  /** The run of these predictions and the store agree. */
  ghost predicate Follows(r: Run, jsons: seq<string>) {
    && r.log == jsons && |r.handles| == |jsons|
    && r.store == Stored(jsons)
    && forall k: nat :: k in r.saved <==> k < |jsons|
  }

  lemma JobFollows(r: Run, jsons: seq<string>, json: string)
    requires Follows(r, jsons)
    ensures Possible(Next(r, Generate), Save(|jsons|, json))
    ensures Follows(Next(Next(r, Generate), Save(|jsons|, json)), jsons + [json])
  {
    hide ToDecimal;
    assert (jsons + [json])[..|jsons|] == jsons;
  }

  lemma {:induction false} JobsExecute(jsons: seq<string>)
    ensures Execute(Jobs(jsons)).Some? && Follows(Execute(Jobs(jsons)).value, jsons)
  {
    if jsons == [] {
    } else {
      hide Execute, Follows, Next, Possible;
      var n := |jsons| - 1;
      var before := Jobs(jsons[..n]);
      JobsExecute(jsons[..n]);
      JobFollows(Execute(before).value, jsons[..n], jsons[n]);
      ExecuteLast(before, Generate);
      ExecuteLast(before + [Generate], Save(n, jsons[n]));
      assert jsons == jsons[..n] + [jsons[n]];
    }
  }

  lemma ExecuteLast(events: seq<Event>, e: Event)
    requires Execute(events).Some?
    ensures e.Generate? ==> Possible(Execute(events).value, e)
    ensures Possible(Execute(events).value, e) ==> Execute(events + [e]) == Some(Next(Execute(events).value, e))
  {
    assert (events + [e])[..|events|] == events;
  }

  /**
   * The history lists every prediction, once for every time it was made, if and only if there were at
   * most 2^32 of them.
   */
  lemma PredictionsListed(jsons: seq<string>)
    ensures Values(Stored(jsons).history) == multiset(jsons) <==> |jsons| <= 4294967296
  {
    hide Execute, Stored, Values, Jobs;
    JobsExecute(jsons);
    HistoryAgreesWithLog(Jobs(jsons));
    AllSavedApart(Execute(Jobs(jsons)).value, |jsons|);
  }

  lemma AllSavedApart(r: Run, n: nat)
    requires forall k: nat :: k in r.saved <==> k < n
    ensures Apart(r) <==> n <= HANDLE_LIMIT
  {
    if n > HANDLE_LIMIT {
      assert 0 in r.saved && HANDLE_LIMIT in r.saved;
      assert 0 % HANDLE_LIMIT == HANDLE_LIMIT % HANDLE_LIMIT;
    } else {
      assert forall k :: k in r.saved ==> k % HANDLE_LIMIT == k;
    }
  }
}
