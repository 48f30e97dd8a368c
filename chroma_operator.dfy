/**
 * The vector-store operator: a lazily created singleton that holds a Chroma
 * collection, resets its index, writes documents in batches of 100 and
 * ingests a directory of PDFs (load, split, optionally reset, then write).
 *
 * The Chroma service is modelled by the calls it receives. Each store keeps
 * the log of calls issued to it, and an oracle `accepts` decides, from the
 * calls issued so far, whether the next call succeeds or throws.
 */
module ChromaOperator {
  import opened Wrappers
  import opened Documents

  /** The number of documents written per `addDocuments` call on the store. */
  const BATCH_SIZE: nat := 100

  /** A call issued to the Chroma collection. */
  datatype StoreCall = ResetCall | AddCall(batch: seq<Document>)

  /** The service's answer to a call, given the calls issued before it: `true` when it succeeds. */
  type Oracle = (seq<StoreCall>, StoreCall) -> bool

  /** The failures the operator reports (the source throws them). */
  datatype OperatorError =
    | NotInitialized        // the `store` getter before `init`
    | ConnectionFailed      // `Chroma.fromExistingCollection` threw
    | ResetRejected         // `index.reset()` threw
    | WriteRejected         // `store.addDocuments(batch)` threw
    | LoadFailed(msg: string)
    | SplitFailed(msg: string)

  /** What `Chroma.fromExistingCollection` finds: a collection (with or without an index) or nothing. */
  datatype Connection = Reachable(hasIndex: bool, accepts: Oracle) | Unreachable

  /** The observable state of a store: whether it has an index, how it answers, and the calls it has received. */
  datatype StoreState = StoreState(hasIndex: bool, accepts: Oracle, log: seq<StoreCall>)

  /** The state of an operator's store after an operation (`None` when not initialised) and the operation's outcome. */
  datatype Step = Step(store: Option<StoreState>, result: Result<(), OperatorError>)

  /** The result of writing a sequence of batches: the log afterwards, and whether every write succeeded. */
  datatype Outcome = Outcome(log: seq<StoreCall>, ok: bool)

  function Min(a: int, b: int): int
  {
    if a <= b then a else b
  }

  // ---------------------------------------------------------------------
  // Batching
  // ---------------------------------------------------------------------

  /** The slices `docs[0..100)`, `docs[100..200)`, ... that `addDocuments` writes, in order. */
  function Batches(docs: seq<Document>): seq<seq<Document>>
    decreases |docs|
  {
    if docs == [] then []
    else
      var k := Min(BATCH_SIZE, |docs|);
      [docs[..k]] + Batches(docs[k..])
  }

  /** The concatenation of a sequence of batches. */
  function Flatten(bs: seq<seq<Document>>): seq<Document>
  {
    if bs == [] then [] else bs[0] + Flatten(bs[1..])
  }

  /** The batches of a non-empty remainder are its first slice followed by the batches of the rest. */
  lemma BatchesFrom(docs: seq<Document>, i: nat)
    requires i < |docs|
    ensures Batches(docs[i..]) == [docs[i..Min(i + BATCH_SIZE, |docs|)]] + Batches(docs[Min(i + BATCH_SIZE, |docs|)..])
  {
    var d := docs[i..];
    var k := Min(BATCH_SIZE, |d|);
    assert d[..k] == docs[i..Min(i + BATCH_SIZE, |docs|)];
    assert d[k..] == docs[Min(i + BATCH_SIZE, |docs|)..];
  }

  /** Concatenating the batches gives back exactly the documents: nothing lost, nothing duplicated, order kept. */
  lemma {:induction false} BatchesFlatten(docs: seq<Document>)
    ensures Flatten(Batches(docs)) == docs
    decreases |docs|
  {
    if docs != [] {
      var k := Min(BATCH_SIZE, |docs|);
      BatchesFlatten(docs[k..]);
      var bs := Batches(docs);
      assert bs[0] == docs[..k];
      assert bs[1..] == Batches(docs[k..]);
      assert docs[..k] + docs[k..] == docs;
    }
  }

  /** Every batch but the last holds exactly 100 documents; the last holds between 1 and 100. */
  lemma {:induction false} BatchSizes(docs: seq<Document>)
    ensures forall j :: 0 <= j < |Batches(docs)| - 1 ==> |Batches(docs)[j]| == BATCH_SIZE
    ensures Batches(docs) != [] ==> 1 <= |Batches(docs)[|Batches(docs)| - 1]| <= BATCH_SIZE
    decreases |docs|
  {
    if docs != [] {
      var k := Min(BATCH_SIZE, |docs|);
      var rest := Batches(docs[k..]);
      BatchSizes(docs[k..]);
      assert Batches(docs) == [docs[..k]] + rest;
      if rest != [] {
        assert |docs| > BATCH_SIZE;
      }
    }
  }

  /** There are `ceil(n / 100)` batches: none for no documents. */
  lemma {:induction false} BatchCount(docs: seq<Document>)
    ensures |Batches(docs)| == (|docs| + BATCH_SIZE - 1) / BATCH_SIZE
    decreases |docs|
  {
    if docs != [] {
      var k := Min(BATCH_SIZE, |docs|);
      BatchCount(docs[k..]);
    }
  }

  /** Batch `j` is the slice `docs[100 j .. min(100 j + 100, n))`. */
  lemma {:induction false} BatchAt(docs: seq<Document>, j: nat)
    requires j < |Batches(docs)|
    ensures j * BATCH_SIZE < |docs|
    ensures Batches(docs)[j] == docs[j * BATCH_SIZE..Min(j * BATCH_SIZE + BATCH_SIZE, |docs|)]
    decreases |docs|
  {
    var k := Min(BATCH_SIZE, |docs|);
    if j > 0 {
      BatchAt(docs[k..], j - 1);
      assert Batches(docs)[j] == Batches(docs[k..])[j - 1];
      assert k == BATCH_SIZE;
      assert docs[k..][(j - 1) * BATCH_SIZE..Min((j - 1) * BATCH_SIZE + BATCH_SIZE, |docs| - k)]
          == docs[j * BATCH_SIZE..Min(j * BATCH_SIZE + BATCH_SIZE, |docs|)];
    }
  }

  /** 250 documents are written as batches of 100, 100 and 50. */
  lemma TwoHundredFiftyDocuments(docs: seq<Document>)
    requires |docs| == 250
    ensures |Batches(docs)| == 3
    ensures |Batches(docs)[0]| == 100 && |Batches(docs)[1]| == 100 && |Batches(docs)[2]| == 50
  {
    BatchCount(docs);
    BatchAt(docs, 0);
    BatchAt(docs, 1);
    BatchAt(docs, 2);
  }

  // ---------------------------------------------------------------------
  // Writing batches, one call each, stopping at the first failure
  // ---------------------------------------------------------------------

  /** The `addDocuments` calls for some batches, in order. */
  function AddCalls(bs: seq<seq<Document>>): (calls: seq<StoreCall>)
    ensures |calls| == |bs|
  {
    seq(|bs|, i requires 0 <= i < |bs| => AddCall(bs[i]))
  }

  /**
   * The sequential `await store.addDocuments(batch)` calls: each batch is
   * issued after the previous one succeeded; the first failure ends the
   * loop with the error, and earlier writes stay in place.
   */
  function WriteBatches(accepts: Oracle, log: seq<StoreCall>, bs: seq<seq<Document>>): Outcome
    decreases |bs|
  {
    if bs == [] then Outcome(log, true)
    else
      var call := AddCall(bs[0]);
      if accepts(log, call) then WriteBatches(accepts, log + [call], bs[1..])
      else Outcome(log + [call], false)
  }

  /** Every batch before the `t`-th was accepted when it was issued. */
  ghost predicate AcceptedBefore(accepts: Oracle, log: seq<StoreCall>, bs: seq<seq<Document>>, t: nat)
    requires t <= |bs|
  {
    forall u :: 0 <= u < t ==> accepts(log + AddCalls(bs[..u]), AddCall(bs[u]))
  }

  /** Issuing the first batch and then a prefix of the rest issues a prefix of all of them. */
  lemma AddCallsShift(log: seq<StoreCall>, bs: seq<seq<Document>>, u: nat)
    requires 0 < |bs| && u < |bs|
    ensures (log + [AddCall(bs[0])]) + AddCalls(bs[1..][..u]) == log + AddCalls(bs[..u + 1])
  {
    assert AddCalls(bs[..u + 1]) == [AddCall(bs[0])] + AddCalls(bs[1..][..u]);
  }

  /**
   * Writing batches issues exactly a prefix of them, in order: the log
   * grows by the `addDocuments` calls of the first `k` batches and by
   * nothing else, and the earlier log is kept.
   */
  lemma {:induction false} WriteBatchesLog(accepts: Oracle, log: seq<StoreCall>, bs: seq<seq<Document>>)
    ensures var o := WriteBatches(accepts, log, bs);
            && |log| <= |o.log| <= |log| + |bs|
            && o.log == log + AddCalls(bs[..|o.log| - |log|])
    decreases |bs|
  {
    if bs != [] {
      var call := AddCall(bs[0]);
      if accepts(log, call) {
        WriteBatchesLog(accepts, log + [call], bs[1..]);
        var o := WriteBatches(accepts, log, bs);
        AddCallsShift(log, bs, |o.log| - |log| - 1);
      } else {
        assert AddCalls(bs[..1]) == [call];
      }
    }
  }

  /**
   * The writes succeed exactly when every batch is accepted; when one is
   * refused it is the last one issued, every earlier one was accepted, and
   * no later one is attempted.
   */
  lemma {:induction false} WriteBatchesStops(accepts: Oracle, log: seq<StoreCall>, bs: seq<seq<Document>>)
    ensures var o := WriteBatches(accepts, log, bs);
            var k := |o.log| - |log|;
            && 0 <= k <= |bs|
            && (o.ok <==> k == |bs| && AcceptedBefore(accepts, log, bs, |bs|))
            && (!o.ok ==> 0 < k && AcceptedBefore(accepts, log, bs, k - 1)
                          && !accepts(log + AddCalls(bs[..k - 1]), AddCall(bs[k - 1])))
    decreases |bs|
  {
    var o := WriteBatches(accepts, log, bs);
    WriteBatchesLog(accepts, log, bs);
    if bs != [] {
      var call := AddCall(bs[0]);
      assert log + AddCalls(bs[..0]) == log;
      if accepts(log, call) {
        var log' := log + [call];
        WriteBatchesStops(accepts, log', bs[1..]);
        var k := |o.log| - |log|;
        // The `u`-th batch, issued after the first, saw the calls of the recursive write.
        forall u | 0 < u < |bs|
          ensures log' + AddCalls(bs[1..][..u - 1]) == log + AddCalls(bs[..u])
          ensures AddCall(bs[1..][u - 1]) == AddCall(bs[u])
        {
          AddCallsShift(log, bs, u - 1);
        }
        if o.ok {
          assert AcceptedBefore(accepts, log, bs, |bs|) by {
            forall u | 0 <= u < |bs|
              ensures accepts(log + AddCalls(bs[..u]), AddCall(bs[u]))
            {
              if u > 0 {
                assert accepts(log' + AddCalls(bs[1..][..u - 1]), AddCall(bs[1..][u - 1]));
              }
            }
          }
        } else {
          assert !accepts(log' + AddCalls(bs[1..][..k - 2]), AddCall(bs[1..][k - 2]));
          forall u | 0 <= u < k - 1
            ensures accepts(log + AddCalls(bs[..u]), AddCall(bs[u]))
          {
            if u > 0 {
              assert accepts(log' + AddCalls(bs[1..][..u - 1]), AddCall(bs[1..][u - 1]));
            }
          }
        }
      } else {
        assert !accepts(log + AddCalls(bs[..0]), AddCall(bs[0]));
      }
    }
  }

  // ---------------------------------------------------------------------
  // The operator's operations on an abstract store state
  // ---------------------------------------------------------------------

  /** `reset()`: read the store (throwing when uninitialised), then `index?.reset()`, a no-op when there is no index. */
  function ResetStep(s: Option<StoreState>): Step
  {
    match s
    case None => Step(None, Err(NotInitialized))
    case Some(st) =>
      if !st.hasIndex then Step(s, Ok(()))
      else Step(Some(st.(log := st.log + [ResetCall])),
                if st.accepts(st.log, ResetCall) then Ok(()) else Err(ResetRejected))
  }

  /** `addDocuments(docs)`: the store is read only inside the loop, so no documents never throw. */
  function AddStep(s: Option<StoreState>, docs: seq<Document>): Step
  {
    if docs == [] then Step(s, Ok(()))
    else
      match s
      case None => Step(None, Err(NotInitialized))
      case Some(st) =>
        var o := WriteBatches(st.accepts, st.log, Batches(docs));
        Step(Some(st.(log := o.log)), if o.ok then Ok(()) else Err(WriteRejected))
  }

  /** `ingestDirectory(dirPath, reset)`: load, split, reset when asked, then add. */
  function IngestStep(s: Option<StoreState>, dirPath: string, reset: bool,
                      load: string -> Result<seq<Document>, string>,
                      split: seq<Document> -> Result<seq<Document>, string>): Step
  {
    match load(dirPath)
    case Err(e) => Step(s, Err(LoadFailed(e)))
    case Ok(raw) =>
      match split(raw)
      case Err(e) => Step(s, Err(SplitFailed(e)))
      case Ok(docs) =>
        if reset then
          var r := ResetStep(s);
          if r.result.Err? then r else AddStep(r.store, docs)
        else AddStep(s, docs)
  }

  /** An operation never creates or drops the store, nor changes how it answers: it only appends calls to its log. */
  lemma IngestKeepsStore(s: Option<StoreState>, dirPath: string, reset: bool,
                         load: string -> Result<seq<Document>, string>,
                         split: seq<Document> -> Result<seq<Document>, string>)
    ensures var t := IngestStep(s, dirPath, reset, load, split).store;
            && t.Some? == s.Some?
            && (s.Some? ==> t.value.hasIndex == s.value.hasIndex && t.value.accepts == s.value.accepts
                            && s.value.log <= t.value.log)
  {
    match load(dirPath)
    case Err(_) =>
    case Ok(raw) =>
      match split(raw)
      case Err(_) =>
      case Ok(docs) =>
        if s.Some? {
          var r := ResetStep(s);
          WriteBatchesLog(s.value.accepts, s.value.log, Batches(docs));
          WriteBatchesLog(r.store.value.accepts, r.store.value.log, Batches(docs));
        }
  }

  /** A failure to load or to split leaves the store unreset and unwritten, and is reported. */
  lemma IngestFailsEarly(s: Option<StoreState>, dirPath: string, reset: bool,
                         load: string -> Result<seq<Document>, string>,
                         split: seq<Document> -> Result<seq<Document>, string>)
    requires load(dirPath).Err? || split(load(dirPath).value).Err?
    ensures IngestStep(s, dirPath, reset, load, split).store == s
    ensures IngestStep(s, dirPath, reset, load, split).result.Err?
  {
  }

  /** The calls an ingest issued to an initialised store. */
  function NewCalls(s: StoreState, t: Step): seq<StoreCall>
  {
    if t.store.Some? && |s.log| <= |t.store.value.log| then t.store.value.log[|s.log|..] else []
  }

  /**
   * After a successful load and split, the ingest issues a reset first
   * exactly when the flag is set and the collection has an index, and then
   * only `addDocuments` calls, for a prefix of the batches in order. A
   * refused reset stops the ingest before any write.
   */
  lemma {:induction false} IngestCallOrder(st: StoreState, dirPath: string, reset: bool,
                                           load: string -> Result<seq<Document>, string>,
                                           split: seq<Document> -> Result<seq<Document>, string>)
    requires load(dirPath).Ok? && split(load(dirPath).value).Ok?
    ensures var docs := split(load(dirPath).value).value;
            var t := IngestStep(Some(st), dirPath, reset, load, split);
            var calls := NewCalls(st, t);
            var r := if reset && st.hasIndex then 1 else 0;
            && t.store.Some? && t.store.value.log == st.log + calls
            && r <= |calls| <= r + |Batches(docs)| && calls[..r] == (if reset && st.hasIndex then [ResetCall] else [])
            && calls[r..] == AddCalls(Batches(docs)[..|calls| - r])
            && (r == 1 && !st.accepts(st.log, ResetCall) ==> |calls| == 1 && t.result == Err(ResetRejected))
  {
    var docs := split(load(dirPath).value).value;
    var t := IngestStep(Some(st), dirPath, reset, load, split);
    var bs := Batches(docs);
    if reset && st.hasIndex {
      var log1 := st.log + [ResetCall];
      if st.accepts(st.log, ResetCall) {
        WriteBatchesLog(st.accepts, log1, bs);
        if docs == [] {
          assert t.store.value.log == log1;
          assert NewCalls(st, t) == [ResetCall];
        } else {
          var o := WriteBatches(st.accepts, log1, bs);
          assert t.store.value.log == o.log;
          assert NewCalls(st, t) == [ResetCall] + AddCalls(bs[..|o.log| - |log1|]);
        }
      } else {
        assert NewCalls(st, t) == [ResetCall];
      }
    } else {
      WriteBatchesLog(st.accepts, st.log, bs);
      if docs == [] {
        assert NewCalls(st, t) == [];
      } else {
        var o := WriteBatches(st.accepts, st.log, bs);
        assert NewCalls(st, t) == AddCalls(bs[..|o.log| - |st.log|]);
      }
    }
  }

  /** A reset is issued exactly when the flag is set and the collection has an index, and then before every write. */
  lemma IngestResetsIffAsked(st: StoreState, dirPath: string, reset: bool,
                             load: string -> Result<seq<Document>, string>,
                             split: seq<Document> -> Result<seq<Document>, string>)
    requires load(dirPath).Ok? && split(load(dirPath).value).Ok?
    ensures var calls := NewCalls(st, IngestStep(Some(st), dirPath, reset, load, split));
            && (ResetCall in calls <==> reset && st.hasIndex)
            && forall j :: 0 <= j < |calls| && calls[j] == ResetCall ==> j == 0
  {
    var calls := NewCalls(st, IngestStep(Some(st), dirPath, reset, load, split));
    IngestCallOrder(st, dirPath, reset, load, split);
    var r := if reset && st.hasIndex then 1 else 0;
    forall j | r <= j < |calls|
      ensures calls[j].AddCall?
    {
      assert calls[j] == calls[r..][j - r];
    }
    if reset && st.hasIndex {
      assert calls[0] == calls[..r][0];
    }
  }

  /** Without an initialised store, an ingest succeeds only when it neither resets nor writes anything. */
  lemma IngestUninitialised(dirPath: string, reset: bool,
                            load: string -> Result<seq<Document>, string>,
                            split: seq<Document> -> Result<seq<Document>, string>)
    requires load(dirPath).Ok? && split(load(dirPath).value).Ok?
    ensures var t := IngestStep(None, dirPath, reset, load, split);
            && t.store == None
            && (t.result.Ok? <==> !reset && split(load(dirPath).value).value == [])
            && (t.result.Err? ==> t.result.error == NotInitialized)
  {
  }

  // ---------------------------------------------------------------------
  // The objects
  // ---------------------------------------------------------------------

  /** A Chroma collection handle: the calls it has received so far. */
  class VectorStore {
    const hasIndex: bool
    const accepts: Oracle
    var log: seq<StoreCall>

    /** A handle on a collection that has received no calls yet. */
    constructor (hasIndex: bool, accepts: Oracle)
      ensures State() == StoreState(hasIndex, accepts, [])
    {
      this.hasIndex := hasIndex;
      this.accepts := accepts;
      log := [];
    }

    function State(): StoreState
      reads this
    {
      StoreState(hasIndex, accepts, log)
    }

    /** `index?.reset()`: issues a reset when the collection has an index, and reports whether it succeeded. */
    method ResetIndex() returns (ok: bool)
      modifies this
      ensures hasIndex ==> log == old(log) + [ResetCall] && ok == accepts(old(log), ResetCall)
      ensures !hasIndex ==> log == old(log) && ok
    {
      ok := true;
      if hasIndex {
        ok := accepts(log, ResetCall);
        log := log + [ResetCall];
      }
    }

    /** `addDocuments(batch)`: issues one write and reports whether it succeeded. */
    method AddDocuments(batch: seq<Document>) returns (ok: bool)
      modifies this
      ensures log == old(log) + [AddCall(batch)]
      ensures ok == accepts(old(log), AddCall(batch))
    {
      ok := accepts(log, AddCall(batch));
      log := log + [AddCall(batch)];
    }
  }

  /** `ChromaOperator`: the store it was initialised with, if any. */
  class Operator {
    var vectorStore: VectorStore?

    /** The private constructor: no store until `init`. */
    constructor ()
      ensures vectorStore == null
    {
      vectorStore := null;
    }

    /** The operator's store state, `None` before `init`. */
    function View(): Option<StoreState>
      reads this, vectorStore
    {
      if vectorStore == null then None else Some(vectorStore.State())
    }

    /** `init`: connect to the existing collection; on failure the field is left as it was. */
    method Init(conn: Connection) returns (r: Result<(), OperatorError>)
      modifies this
      ensures conn.Reachable? ==> r == Ok(()) && vectorStore != null && fresh(vectorStore)
                                  && vectorStore.State() == StoreState(conn.hasIndex, conn.accepts, [])
      ensures conn.Unreachable? ==> r == Err(ConnectionFailed) && vectorStore == old(vectorStore)
    {
      match conn
      case Unreachable =>
        r := Err(ConnectionFailed);
      case Reachable(hasIndex, accepts) =>
        vectorStore := new VectorStore(hasIndex, accepts);
        r := Ok(());
    }

    /** The `store` getter: throws while the store is unset, and otherwise returns it. */
    function Store(): (r: Result<VectorStore, OperatorError>)
      reads this
      ensures r.Ok? <==> vectorStore != null
      ensures r.Ok? ==> r.value == vectorStore
      ensures r.Err? ==> r.error == NotInitialized
    {
      if vectorStore == null then Err(NotInitialized) else Ok(vectorStore)
    }

    /** `reset`: clears the collection's index through the store. */
    method Reset() returns (r: Result<(), OperatorError>)
      modifies vectorStore
      ensures vectorStore == old(vectorStore)
      ensures Step(View(), r) == ResetStep(old(View()))
    {
      var s := Store();
      if s.Err? {
        return Err(s.error);
      }
      var ok := s.value.ResetIndex();
      r := if ok then Ok(()) else Err(ResetRejected);
    }

    /** `addDocuments`: writes `docs` in consecutive slices of 100, reading the store before each write. */
    method AddDocuments(docs: seq<Document>) returns (r: Result<(), OperatorError>)
      modifies vectorStore
      ensures vectorStore == old(vectorStore)
      ensures Step(View(), r) == AddStep(old(View()), docs)
    {
      var i := 0;
      while i < |docs|
        invariant 0 <= i
        invariant i > 0 ==> vectorStore != null && i <= |docs| + BATCH_SIZE
        invariant vectorStore != null ==>
                    WriteBatches(vectorStore.accepts, old(vectorStore.log), Batches(docs))
                    == WriteBatches(vectorStore.accepts, vectorStore.log, Batches(docs[Min(i, |docs|)..]))
      {
        var batch := docs[i..Min(i + BATCH_SIZE, |docs|)];
        BatchesFrom(docs, i);
        var s := Store();
        if s.Err? {
          return Err(s.error);
        }
        var ok := s.value.AddDocuments(batch);
        if !ok {
          return Err(WriteRejected);
        }
        i := i + BATCH_SIZE;
      }
      r := Ok(());
    }

    /** `ingestDirectory(dirPath, reset = true)`: load, split, reset when asked, then add. */
    method IngestDirectory(dirPath: string,
                           load: string -> Result<seq<Document>, string>,
                           split: seq<Document> -> Result<seq<Document>, string>,
                           reset: bool := true)
      returns (r: Result<(), OperatorError>)
      modifies vectorStore
      ensures vectorStore == old(vectorStore)
      ensures Step(View(), r) == IngestStep(old(View()), dirPath, reset, load, split)
    {
      var rawDocs := load(dirPath);
      if rawDocs.Err? {
        return Err(LoadFailed(rawDocs.error));
      }
      var docs := split(rawDocs.value);
      if docs.Err? {
        return Err(SplitFailed(docs.error));
      }
      if reset {
        r := Reset();
        if r.Err? {
          return;
        }
      }
      r := AddDocuments(docs.value);
    }
  }

  /** The class-level `instance` slot of `ChromaOperator`. */
  class Registry {
    var instance: Operator?

    /** Every registered operator has been initialised. */
    ghost predicate Valid()
      reads this, instance
    {
      instance != null ==> instance.vectorStore != null
    }

    constructor ()
      ensures instance == null && Valid()
    {
      instance := null;
    }

    /**
     * `getInstance`: the first successful call creates and initialises an
     * operator and registers it; every later call returns that same operator
     * and does not initialise again. A failed `init` registers nothing.
     */
    method GetInstance(conn: Connection) returns (r: Result<Operator, OperatorError>)
      requires Valid()
      modifies this
      ensures Valid()
      ensures old(instance) != null ==> instance == old(instance) && r == Ok(instance)
      ensures old(instance) == null && conn.Reachable? ==>
                r.Ok? && r.value == instance && fresh(instance) && fresh(instance.vectorStore)
                && instance.View() == Some(StoreState(conn.hasIndex, conn.accepts, []))
      ensures old(instance) == null && conn.Unreachable? ==> r == Err(ConnectionFailed) && instance == null
    {
      if instance == null {
        var operator := new Operator();
        var res := operator.Init(conn);
        if res.Err? {
          return Err(res.error);
        }
        instance := operator;
      }
      r := Ok(instance);
    }
  }
}
