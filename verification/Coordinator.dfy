/**
  The coordinator and the triage queue of a hub. The coordinator keeps the corpus (a set keyed by
  the data itself) and, for every connected worker, the inputs not yet delivered to it.
*/
module Coordinator {
  import opened Cover
  import opened Wrappers

  const SYNC_DEADLINE: nat := 300   // seconds

  datatype Artifact = Artifact(data: Data, meta: nat, user: bool)

  datatype CoordinatorInput = CoordinatorInput(data: Data, prio: nat, minimized: bool, smashed: bool)

  datatype Worker = Worker(procs: nat, pending: seq<CoordinatorInput>, lastSync: nat)

  function DataOf(inputs: seq<CoordinatorInput>): (r: seq<Data>)
    ensures |r| == |inputs|
  {
    seq(|inputs|, k requires 0 <= k < |inputs| => inputs[k].data)
  }

  lemma DataOfAppend(a: seq<CoordinatorInput>, b: seq<CoordinatorInput>)
    ensures DataOf(a + b) == DataOf(a) + DataOf(b)
  {
  }

  /** Each entry of the corpus once, and nothing else. */
  predicate ExactlyOnce(inputs: seq<CoordinatorInput>, keys: set<Data>)
  {
    multiset(DataOf(inputs)) == multiset(keys)
  }

  /** Inputs that still have to be smashed go to their discoverer only. */
  predicate SmashedElsewhere(inputs: seq<CoordinatorInput>, id: nat, origin: map<Data, nat>)
  {
    forall k | 0 <= k < |inputs| && !inputs[k].smashed :: inputs[k].data in origin && origin[inputs[k].data] == id
  }

  /** An input that a worker gets carries what the coordinator knows of it. */
  predicate FromCorpus(inputs: seq<CoordinatorInput>, corpus: map<Data, Artifact>)
  {
    forall k | 0 <= k < |inputs| ::
      inputs[k].data in corpus && inputs[k].prio == corpus[inputs[k].data].meta
        && inputs[k].minimized == !corpus[inputs[k].data].user
  }

  /** A worker with one more input to be delivered. */
  function Queued(w: Worker, data: Data, prio: nat, smashed: bool): Worker {
    w.(pending := w.pending + [CoordinatorInput(data, prio, true, smashed)])
  }

  /** The run invariant for one connected worker. */
  predicate WorkerOk(w: Worker, id: nat, got: seq<CoordinatorInput>, corpus: map<Data, Artifact>,
                     origin: map<Data, nat>)
  {
    && ExactlyOnce(got + w.pending, corpus.Keys)
    && SmashedElsewhere(got + w.pending, id, origin)
    && FromCorpus(got + w.pending, corpus)
  }

  /** A new corpus entry, appended to what a worker has still to get. */
  lemma NewEntry(w: Worker, id: nat, got: seq<CoordinatorInput>, corpus: map<Data, Artifact>, origin: map<Data, nat>,
                 data: Data, prio: nat, discoverer: nat)
    requires WorkerOk(w, id, got, corpus, origin) && data !in corpus
    ensures WorkerOk(Queued(w, data, prio, id != discoverer), id, got,
                     corpus[data := Artifact(data, prio, false)], origin[data := discoverer])
  {
    var inp := CoordinatorInput(data, prio, true, id != discoverer);
    var all := got + w.pending;
    assert got + (w.pending + [inp]) == all + [inp];
    assert corpus[data := Artifact(data, prio, false)].Keys == corpus.Keys + {data};
    OneMore(all, inp, corpus.Keys);
    hide ExactlyOnce, DataOf;
    assert forall k | 0 <= k < |all| :: all[k].data in corpus;
  }

  lemma OneMore(inputs: seq<CoordinatorInput>, inp: CoordinatorInput, keys: set<Data>)
    requires ExactlyOnce(inputs, keys) && inp.data !in keys
    ensures ExactlyOnce(inputs + [inp], keys + {inp.data})
  {
    DataOfAppend(inputs, [inp]);
    assert DataOf([inp]) == [inp.data];
  }

  /** A delivery moves the pending inputs to the delivered ones. */
  lemma Delivery(w: Worker, id: nat, got: seq<CoordinatorInput>, corpus: map<Data, Artifact>, origin: map<Data, nat>,
                 now: nat)
    requires WorkerOk(w, id, got, corpus, origin)
    ensures WorkerOk(w.(pending := [], lastSync := now), id, got + w.pending, corpus, origin)
  {
    hide ExactlyOnce, SmashedElsewhere, FromCorpus;
    assert (got + w.pending) + [] == got + w.pending;
  }

  class Coordinator {
    var idSeq: nat
    var workers: map<nat, Worker>
    var corpus: map<Data, Artifact>
    var statExecs: nat
    var statRestarts: nat
    var coverFullness: nat
    ghost var delivered: map<nat, seq<CoordinatorInput>>   // by worker: results of Connect and Sync, in order
    ghost var origin: map<Data, nat>                       // the discoverer of each new input

    ghost predicate Valid()
      reads this
    {
      && (forall d | d in corpus :: corpus[d].data == d)
      && (forall id | id in workers ::
        id <= idSeq && id in delivered && WorkerOk(workers[id], id, delivered[id], corpus, origin))
      && (forall id | id in delivered :: id <= idSeq)
      && (forall d | d in origin :: d in corpus)
    }

    /** Starts with the stored corpus, or with the empty input if there is none. */
    constructor (stored: map<Data, Artifact>)
      requires forall d | d in stored :: stored[d].data == d
      ensures Valid() && workers == map[] && idSeq == statExecs == statRestarts == coverFullness == 0
      ensures corpus == if stored == map[] then map[[] := Artifact([], 0, false)] else stored
    {
      idSeq, workers, statExecs, statRestarts, coverFullness := 0, map[], 0, 0, 0;
      corpus := if |stored| == 0 then map[[] := Artifact([], 0, false)] else stored;
      delivered, origin := map[], map[];
    }

    /** A new worker gets a new id and every corpus entry once, in whatever order the set is walked. */
    method Connect(procs: nat, now: nat) returns (id: nat, inputs: seq<CoordinatorInput>)
      requires Valid()
      modifies this
      ensures Valid() && corpus == old(corpus) && origin == old(origin)
      ensures id == old(idSeq) + 1 == idSeq && id !in old(workers)
      ensures workers == old(workers)[id := Worker(procs, [], now)] && delivered == old(delivered)[id := inputs]
      ensures ExactlyOnce(inputs, corpus.Keys) && FromCorpus(inputs, corpus) && forall k | 0 <= k < |inputs| ::
                inputs[k].smashed
    {
      idSeq := idSeq + 1;
      id := idSeq;
      inputs := ListCorpus();
      assert inputs + [] == inputs;
      workers := workers[id := Worker(procs, [], now)];
      delivered := delivered[id := inputs];
    }

    method ListCorpus() returns (inputs: seq<CoordinatorInput>)
      requires forall d | d in corpus :: corpus[d].data == d
      ensures ExactlyOnce(inputs, corpus.Keys) && FromCorpus(inputs, corpus) && forall k | 0 <= k < |inputs| ::
                inputs[k].smashed
    {
      inputs := [];
      var left := corpus.Keys;
      while left != {}
        invariant left <= corpus.Keys
        invariant ExactlyOnce(inputs, corpus.Keys - left)
        invariant FromCorpus(inputs, corpus) && forall k | 0 <= k < |inputs| :: inputs[k].smashed
        decreases |left|
      {
        var d :| d in left;
        var a := corpus[d];
        var inp := CoordinatorInput(a.data, a.meta, !a.user, true);
        OneMore(inputs, inp, corpus.Keys - left);
        assert corpus.Keys - (left - {d}) == (corpus.Keys - left) + {d};
        inputs := inputs + [inp];
        left := left - {d};
      }
      assert corpus.Keys - {} == corpus.Keys;
    }

    /**
      A new input of a known worker. If it is new it joins the corpus and is queued for every worker,
      already smashed for all but its discoverer; an unknown worker is refused.
    */
    method NewInput(id: nat, data: Data, prio: nat) returns (ok: bool)
      requires Valid()
      modifies this`workers, this`corpus, this`origin
      ensures Valid()
      ensures ok <==> id in old(workers)
      ensures !ok || data in old(corpus) ==> workers == old(workers) && corpus == old(corpus) && origin == old(origin)
      ensures ok && data !in old(corpus) ==>
                && corpus == old(corpus)[data := Artifact(data, prio, false)] && origin == old(origin)[data := id]
                && workers.Keys == old(workers).Keys
                && forall w | w in workers :: workers[w] == Queued(old(workers)[w], data, prio, w != id)
    {
      hide WorkerOk, Queued;
      if id !in workers {
        return false;
      }
      if data in corpus {
        return true;
      }
      ghost var corpus0, origin0 := corpus, origin;
      corpus := corpus[data := Artifact(data, prio, false)];
      origin := origin[data := id];
      QueueForAll(id, data, prio);
      forall w | w in workers ensures WorkerOk(workers[w], w, delivered[w], corpus, origin) {
        NewEntry(old(workers)[w], w, delivered[w], corpus0, origin0, data, prio, id);
      }
      ok := true;
    }

    method QueueForAll(id: nat, data: Data, prio: nat)
      modifies this`workers
      ensures workers.Keys == old(workers).Keys
      ensures forall w | w in workers :: workers[w] == Queued(old(workers)[w], data, prio, w != id)
    {
      hide Queued;
      var left := workers.Keys;
      while left != {}
        invariant left <= workers.Keys == old(workers).Keys
        invariant forall w | w in left :: workers[w] == old(workers)[w]
        invariant forall w | w in workers && w !in left :: workers[w] == Queued(old(workers)[w], data, prio, w != id)
        decreases |left|
      {
        var w :| w in left;
        workers := workers[w := Queued(workers[w], data, prio, w != id)];
        left := left - {w};
      }
    }

    /** A sync delivers the pending inputs and empties the queue. */
    method Sync(id: nat, execs: nat, restarts: nat, fullness: nat, now: nat)
      returns (ok: bool, inputs: seq<CoordinatorInput>)
      requires Valid()
      modifies this`workers, this`statExecs, this`statRestarts, this`coverFullness, this`delivered
      ensures Valid()
      ensures ok <==> id in old(workers)
      ensures !ok ==> inputs == [] && workers == old(workers) && delivered == old(delivered)
      ensures ok ==>
              inputs == old(workers)[id].pending && delivered == old(delivered)[id := old(delivered)[id] + inputs]
      ensures ok ==> workers == old(workers)[id := old(workers)[id].(pending := [], lastSync := now)]
      ensures ok ==> statExecs == old(statExecs) + execs && statRestarts == old(statRestarts) + restarts
      ensures ok ==> coverFullness == if old(coverFullness) < fullness then fullness else old(coverFullness)
    {
      hide WorkerOk;
      if id !in workers {
        return false, [];
      }
      Delivery(workers[id], id, delivered[id], corpus, origin, now);
      statExecs := statExecs + execs;
      statRestarts := statRestarts + restarts;
      if coverFullness < fullness {
        coverFullness := fullness;
      }
      inputs := workers[id].pending;
      workers := workers[id := workers[id].(pending := [], lastSync := now)];
      delivered := delivered[id := delivered[id] + inputs];
      ok := true;
    }

    /** Workers that have not synced within the deadline are forgotten; the others are untouched. */
    method RemoveDead(now: nat)
      requires Valid()
      modifies this`workers
      ensures Valid()
      ensures workers == map id | id in old(workers) && now - old(workers)[id].lastSync < SYNC_DEADLINE ::
                old(workers)[id]
    {
      hide WorkerOk;
      var left := workers.Keys;
      while left != {}
        invariant left <= workers.Keys <= old(workers).Keys
        invariant forall id | id in workers :: workers[id] == old(workers)[id]
        invariant forall id | id in old(workers) && id !in left ::
                    id in workers <==> now - old(workers)[id].lastSync < SYNC_DEADLINE
        invariant forall id | id in left :: id in workers
        decreases |left|
      {
        var id :| id in left;
        left := left - {id};
        if now - workers[id].lastSync >= SYNC_DEADLINE {
          workers := workers - {id};
        }
      }
    }
  }

  /** Whatever has happened before: a connected worker that has just synced has got every corpus entry exactly once. */
  lemma SyncedWorkerIsComplete(w: Worker, id: nat, got: seq<CoordinatorInput>, corpus: map<Data, Artifact>,
                               origin: map<Data, nat>, d: Data)
    requires WorkerOk(w, id, got, corpus, origin) && w.pending == []
    ensures d in corpus <==> exists k :: 0 <= k < |got| && got[k].data == d
    ensures forall j, k | 0 <= j < k < |got| :: got[j].data != got[k].data
  {
    assert got + [] == got;
    OnceMeansDistinct(DataOf(got), corpus.Keys);
    var ds := DataOf(got);
    assert d in multiset(ds) <==> d in multiset(corpus.Keys);
    if d in corpus {
      assert d in ds;
      var k :| 0 <= k < |ds| && ds[k] == d;
      assert got[k].data == d;
    }
    forall k | 0 <= k < |got| ensures got[k].data in corpus {
    }
    forall j, k | 0 <= j < k < |got| ensures got[j].data != got[k].data {
      assert ds[j] != ds[k];
    }
  }

  lemma OnceMeansDistinct(ds: seq<Data>, keys: set<Data>)
    requires multiset(ds) == multiset(keys)
    ensures forall j, k | 0 <= j < k < |ds| :: ds[j] != ds[k]
  {
    forall j, k | 0 <= j < k < |ds| ensures ds[j] != ds[k] {
      RepeatCounts(ds, j, k);
      assert multiset(keys)[ds[j]] <= 1;
    }
  }

  lemma RepeatCounts(ds: seq<Data>, j: nat, k: nat)
    requires j < k < |ds|
    ensures ds[j] == ds[k] ==> multiset(ds)[ds[j]] >= 2
  {
    var front, back := ds[..k], ds[k..];
    assert ds == front + back;
    assert front[j] in multiset(front);
    assert back[0] in multiset(back);
    assert multiset(ds)[ds[j]] == multiset(front)[ds[j]] + multiset(back)[ds[j]];
  }

  // ----- The hub's triage queue --------------------------------------------------------

  /** Everything received is queued, buffered, sent or dropped. */
  predicate Accounted<T>(received: multiset<T>, queue: seq<T>, kept: multiset<T>, sent: seq<T>, dropped: multiset<T>)
  {
    received == multiset(queue) + kept + multiset(sent) + dropped
  }

  lemma QueueReplaced<T>(received: multiset<T>, queue: seq<T>, kept: multiset<T>, sent: seq<T>, dropped: multiset<T>,
                         corpus: seq<T>)
    requires Accounted(received, queue, kept, sent, dropped)
    ensures Accounted(received + multiset(corpus), corpus, kept, sent, dropped + multiset(queue))
  {
    Regroup(multiset(queue), kept, multiset(sent), dropped, multiset(corpus));
  }

  lemma QueueExtended<T>(received: multiset<T>, queue: seq<T>, kept: multiset<T>, sent: seq<T>, dropped: multiset<T>,
                         inputs: seq<T>)
    requires Accounted(received, queue, kept, sent, dropped)
    ensures Accounted(received + multiset(inputs), queue + inputs, kept, sent, dropped)
  {
    Regroup(multiset(queue), kept, multiset(sent), dropped, multiset(inputs));
    assert multiset(queue + inputs) == multiset(queue) + multiset(inputs);
  }

  lemma Regroup<T>(a: multiset<T>, b: multiset<T>, c: multiset<T>, d: multiset<T>, e: multiset<T>)
    ensures (a + b + c + d) + e == e + b + c + (d + a)
  {
    forall x: T ensures ((a + b + c + d) + e)[x] == (e + b + c + (d + a))[x] {
    }
  }

  /**
    The hub hands inputs to its workers through a channel, from a queue and a one-slot buffer that
    is filled whenever it is empty. Reconnecting replaces the queue.
  */
  class TriageQueue {
    var queue: seq<CoordinatorInput>
    var slot: Option<CoordinatorInput>
    ghost var received: multiset<CoordinatorInput>
    ghost var sent: seq<CoordinatorInput>
    ghost var dropped: multiset<CoordinatorInput>

    ghost function SlotContents(): multiset<CoordinatorInput>
      reads this`slot
    {
      if slot.Some? then multiset{slot.value} else multiset{}
    }

    /** Everything received is queued, buffered, sent, or was dropped by a reconnect: nothing is lost or repeated. */
    ghost predicate Valid()
      reads this
    {
      Accounted(received, queue, SlotContents(), sent, dropped)
    }

    constructor (corpus: seq<CoordinatorInput>)
      ensures Valid() && received == multiset(corpus) && dropped == multiset{} && sent == []
    {
      queue, slot := corpus, None;
      received, sent, dropped := multiset(corpus), [], multiset{};
    }

    /** The top of the hub's loop: an empty slot is filled from the end of the queue. */
    method Fill()
      requires Valid()
      modifies this`queue, this`slot
      ensures Valid()
      ensures old(queue) != [] ==> slot.Some?
      ensures slot.None? ==> queue == []
    {
      if |queue| > 0 && slot.None? {
        Pop();
      }
    }

    method Pop()
      requires Valid() && queue != [] && slot.None?
      modifies this`queue, this`slot
      ensures Valid() && slot == Some(old(queue)[|old(queue)| - 1]) && queue == old(queue)[..|old(queue)| - 1]
    {
      var n := |queue| - 1;
      assert queue == queue[..n] + [queue[n]];
      slot := Some(queue[n]);
      queue := queue[..n];
    }

    /** The channel has taken the buffered input. */
    method Sent() returns (input: CoordinatorInput)
      requires Valid() && slot.Some?
      modifies this`queue, this`slot, this`sent
      ensures Valid() && input == old(slot).value && sent == old(sent) + [input]
      ensures slot == if old(queue) != [] then Some(old(queue)[|old(queue)| - 1]) else None
    {
      input := slot.value;
      sent := sent + [input];
      slot := None;
      if |queue| > 0 {
        Pop();
      }
    }

    /** Inputs from a sync are queued. */
    method Receive(inputs: seq<CoordinatorInput>)
      requires Valid()
      modifies this`queue, this`received
      ensures Valid() && queue == old(queue) + inputs && received == old(received) + multiset(inputs)
    {
      QueueExtended(received, queue, SlotContents(), sent, dropped, inputs);
      hide Accounted;
      if |inputs| > 0 {
        queue := queue + inputs;
      } else {
        assert queue + inputs == queue;
      }
      received := received + multiset(inputs);
    }

    /** A reconnect replaces the queue by the coordinator's corpus; the buffered input stays. */
    method Reconnect(corpus: seq<CoordinatorInput>)
      requires Valid()
      modifies this`queue, this`received, this`dropped
      ensures Valid() && queue == corpus
      ensures dropped == old(dropped) + multiset(old(queue)) && received == old(received) + multiset(corpus)
    {
      hide Accounted;
      QueueReplaced(received, queue, SlotContents(), sent, dropped, corpus);
      dropped := dropped + multiset(queue);
      received := received + multiset(corpus);
      queue := corpus;
    }
  }
}
