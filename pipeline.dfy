/** The driver loop of `run_processing` and `batch_write`, run sequentially: the
    name source is read in chunks of `workers * 200` items, each chunk's results
    are taken in the order in which the workers complete them, and successful
    usernames go either to a write buffer flushed every 1000 lines or to standard
    output. */
module Pipeline {
  import opened Wrappers
  import opened Seqs
  import opened Generator

  /** `WRITE_BUFFER_SIZE`: lines collected before a write to the output file. */
  const WriteBufferSize: nat := 1000
  /** `CHUNK_SIZE = workers * ChunkFactor`: items loaded at once. */
  const ChunkFactor: nat := 200
  /** The `ValueError` that `ThreadPoolExecutor(max_workers=workers)` raises for `workers <= 0`. */
  const MaxWorkersError: string := "max_workers must be greater than 0"

  /** What a worker computes for one item: its usernames, or the message of the
      exception it raised. */
  type Task = WorkItem -> Result<seq<string>, string>

  /** The task `run_processing` submits: `generator.process_single_task`. */
  function GeneratorTask(g: UsernameGenerator): Task {
    item => ProcessSingleTask(g, item)
  }

  // ---------------------------------------------------------------------------
  // Chunking: `list(itertools.islice(iterator, CHUNK_SIZE))` until it is empty
  // ---------------------------------------------------------------------------

  /** The first `size` items, or all of them when fewer remain. */
  function Take(items: seq<WorkItem>, size: nat): (chunk: seq<WorkItem>)
    ensures |chunk| == if |items| < size then |items| else size
    ensures chunk <= items
  {
    if |items| < size then items else items[..size]
  }

  /** The successive slices the loop reads from the name source. */
  function Chunks(items: seq<WorkItem>, size: nat): seq<seq<WorkItem>>
    requires size > 0
    decreases |items|
  {
    if items == [] then [] else [Take(items, size)] + Chunks(items[|Take(items, size)|..], size)
  }

  /** Reading the chunks one after the other gives back the source, in order. */
  lemma {:induction false} ChunksFlatten(items: seq<WorkItem>, size: nat)
    requires size > 0
    ensures Flatten(Chunks(items, size)) == items
    decreases |items|
  {
    if items != [] {
      var c := Take(items, size);
      var rest := items[|c|..];
      var cs := Chunks(items, size);
      assert cs == [c] + Chunks(rest, size);
      assert cs[0] == c && cs[1..] == Chunks(rest, size);
      assert Flatten(cs) == c + Flatten(Chunks(rest, size));
      assert Flatten(Chunks(rest, size)) == rest by {
        ChunksFlatten(rest, size);
      }
      PrefixSplit(items, |c|, |items|);
      assert items[..|c|] == c;
    }
  }

  /** Every chunk is non-empty and holds at most `size` items; every chunk but the
      last holds exactly `size`. */
  lemma {:induction false} ChunksSizes(items: seq<WorkItem>, size: nat, k: nat)
    requires size > 0 && k < |Chunks(items, size)|
    ensures 0 < |Chunks(items, size)[k]| <= size
    ensures k < |Chunks(items, size)| - 1 ==> |Chunks(items, size)[k]| == size
    decreases |items|
  {
    var c := Take(items, size);
    var rest := Chunks(items[|c|..], size);
    assert Chunks(items, size) == [c] + rest;
    if k > 0 {
      ChunksSizes(items[|c|..], size, k - 1);
    } else if 0 < |Chunks(items, size)| - 1 {
      assert items[|c|..] != [];
    }
  }

  /** `orders[k]` is the order in which `as_completed` hands back the futures of
      chunk `k`: some rearrangement of that chunk. */
  predicate CompletionOrders(items: seq<WorkItem>, size: nat, orders: seq<seq<WorkItem>>)
    requires size > 0
  {
    var chunks := Chunks(items, size);
    |orders| == |chunks| && forall k :: 0 <= k < |orders| ==> multiset(orders[k]) == multiset(chunks[k])
  }

  /** Whatever the completion order, every item of the source is handled exactly once. */
  lemma CompletionIsPermutation(items: seq<WorkItem>, size: nat, orders: seq<seq<WorkItem>>)
    requires size > 0 && CompletionOrders(items, size, orders)
    ensures multiset(Flatten(orders)) == multiset(items)
  {
    FlattenMultiset(orders, Chunks(items, size));
    ChunksFlatten(items, size);
  }

  // ---------------------------------------------------------------------------
  // Output text
  // ---------------------------------------------------------------------------

  /** `'\n'.join(lines)` */
  function JoinLines(lines: seq<string>): string {
    if lines == [] then []
    else if |lines| == 1 then lines[0]
    else lines[0] + "\n" + JoinLines(lines[1..])
  }

  /** The text `batch_write` sends to the file: nothing for an empty buffer,
      otherwise the lines joined by newlines and one final newline. */
  function BatchWrite(buffer: seq<string>): string {
    if buffer == [] then [] else JoinLines(buffer) + "\n"
  }

  /** Reference definition: every line followed by its own newline, which is also
      what one `print(u)` per username writes. */
  function Lines(lines: seq<string>): string {
    if lines == [] then [] else lines[0] + "\n" + Lines(lines[1..])
  }

  lemma {:induction false} BatchWriteIsLines(buffer: seq<string>)
    ensures BatchWrite(buffer) == Lines(buffer)
  {
    if |buffer| == 1 {
      assert buffer[1..] == [];
    } else if |buffer| > 1 {
      BatchWriteIsLines(buffer[1..]);
      assert JoinLines(buffer[1..]) + "\n" == Lines(buffer[1..]);
    }
  }

  lemma {:induction false} LinesAppend(a: seq<string>, b: seq<string>)
    ensures Lines(a + b) == Lines(a) + Lines(b)
  {
    if a == [] {
      assert a + b == b;
    } else {
      assert (a + b)[1..] == a[1..] + b;
      LinesAppend(a[1..], b);
    }
  }

  /** The whole content written to the file: one `batch_write` per flushed buffer. */
  function FileText(batches: seq<seq<string>>): string {
    if batches == [] then [] else BatchWrite(batches[0]) + FileText(batches[1..])
  }

  /** However the lines were split into batches, the file holds each of them
      followed by a newline, in order. */
  lemma {:induction false} FileTextIsLines(batches: seq<seq<string>>)
    ensures FileText(batches) == Lines(Flatten(batches))
  {
    if batches != [] {
      FileTextIsLines(batches[1..]);
      BatchWriteIsLines(batches[0]);
      LinesAppend(batches[0], Flatten(batches[1..]));
    }
  }

  // ---------------------------------------------------------------------------
  // What a sequence of completed items contributes
  // ---------------------------------------------------------------------------

  /** The usernames a successful item yields; a failed item yields none. */
  function Produced(task: Task, item: WorkItem): seq<string> {
    match task(item)
    case Success(usernames) => usernames
    case Failure(_) => []
  }

  /** Usernames of the items, in the order the items were handled. */
  function Usernames(task: Task, done: seq<WorkItem>): seq<string>
    decreases |done|
  {
    if done == [] then [] else Usernames(task, done[..|done| - 1]) + Produced(task, done[|done| - 1])
  }

  /** The error report of one item: the item and the exception's message when it
      failed, nothing when it succeeded. */
  function Report(task: Task, item: WorkItem): seq<(WorkItem, string)> {
    match task(item)
    case Success(_) => []
    case Failure(e) => [(item, e)]
  }

  /** The error reports, one per failed item, in the order the items were handled. */
  function Failures(task: Task, done: seq<WorkItem>): seq<(WorkItem, string)>
    decreases |done|
  {
    if done == [] then [] else Failures(task, done[..|done| - 1]) + Report(task, done[|done| - 1])
  }

  lemma UsernamesSnoc(task: Task, done: seq<WorkItem>, item: WorkItem)
    ensures Usernames(task, done + [item]) == Usernames(task, done) + Produced(task, item)
    ensures Failures(task, done + [item]) == Failures(task, done) + Report(task, item)
  {
    assert (done + [item])[..|done|] == done;
  }

  lemma {:induction false} UsernamesAppend(task: Task, a: seq<WorkItem>, b: seq<WorkItem>)
    ensures Usernames(task, a + b) == Usernames(task, a) + Usernames(task, b)
    decreases |b|
  {
    if b == [] {
      assert a + b == a;
    } else {
      var b' := b[..|b| - 1];
      assert a + b == (a + b') + [b[|b| - 1]];
      assert b == b' + [b[|b| - 1]];
      UsernamesSnoc(task, a + b', b[|b| - 1]);
      UsernamesSnoc(task, b', b[|b| - 1]);
      UsernamesAppend(task, a, b');
    }
  }

  /** The usernames of a single full name are those `generate_from_name` returns. */
  lemma UsernamesOfName(g: UsernameGenerator, name: string)
    ensures Usernames(GeneratorTask(g), [FullName(name)]) == NameUsernames(g, name)
  {
    UsernamesSnoc(GeneratorTask(g), [], FullName(name));
  }

  /** A pair with an empty side is reported and yields no usernames. */
  lemma EmptyPairSideReported(g: UsernameGenerator, done: seq<WorkItem>, fn: string, ln: string)
    requires fn == [] || ln == []
    ensures Usernames(GeneratorTask(g), done + [NamePair(fn, ln)]) == Usernames(GeneratorTask(g), done)
    ensures Failures(GeneratorTask(g), done + [NamePair(fn, ln)])
         == Failures(GeneratorTask(g), done) + [(NamePair(fn, ln), NoneNameError)]
  {
    FailedItemContributesNothing(GeneratorTask(g), done, NamePair(fn, ln));
  }

  /** A failed item contributes one error report and no usernames. */
  lemma FailedItemContributesNothing(task: Task, done: seq<WorkItem>, item: WorkItem)
    requires task(item).Failure?
    ensures Usernames(task, done + [item]) == Usernames(task, done)
    ensures Failures(task, done + [item]) == Failures(task, done) + [(item, task(item).error)]
  {
    UsernamesSnoc(task, done, item);
  }

  /** Taking the same item out of two equal multisets leaves equal multisets. */
  lemma RemoveOne(a: seq<WorkItem>, x: WorkItem, b1: seq<WorkItem>, b2: seq<WorkItem>)
    requires multiset(a + [x]) == multiset(b1 + [x] + b2)
    ensures multiset(a) == multiset(b1 + b2)
  {
    calc {
      multiset(a);
      multiset(a + [x]) - multiset{x};
      multiset(b1 + [x] + b2) - multiset{x};
      { assert multiset(b1 + [x] + b2) == multiset(b1 + b2) + multiset{x}; }
      multiset(b1 + b2);
    }
  }

  /** The completion order changes the order of the usernames, never which ones
      there are. */
  lemma {:induction false} UsernamesPermutation(task: Task, a: seq<WorkItem>, b: seq<WorkItem>)
    requires multiset(a) == multiset(b)
    ensures multiset(Usernames(task, a)) == multiset(Usernames(task, b))
    decreases |a|
  {
    if a != [] {
      var x := a[|a| - 1];
      var a' := a[..|a| - 1];
      assert a == a' + [x];
      assert x in multiset(b);
      var i :| 0 <= i < |b| && b[i] == x;
      var b1, b2 := b[..i], b[i + 1..];
      assert b == b1 + [x] + b2;
      RemoveOne(a', x, b1, b2);
      UsernamesPermutation(task, a', b1 + b2);
      UsernamesSnoc(task, a', x);
      UsernamesAppend(task, b1 + [x], b2);
      UsernamesSnoc(task, b1, x);
      UsernamesAppend(task, b1, b2);
    } else {
      assert |b| == |multiset(b)| == 0;
    }
  }

  /** The completion order does not change how many usernames there are. */
  lemma UsernamesCountPermutation(task: Task, a: seq<WorkItem>, b: seq<WorkItem>)
    requires multiset(a) == multiset(b)
    ensures |Usernames(task, a)| == |Usernames(task, b)|
  {
    UsernamesPermutation(task, a, b);
    assert |Usernames(task, a)| == |multiset(Usernames(task, a))|;
    assert |Usernames(task, b)| == |multiset(Usernames(task, b))|;
  }

  // ---------------------------------------------------------------------------
  // The loop
  // ---------------------------------------------------------------------------

  /** The variables the loop of `run_processing` updates: `output_buffer`, the
      buffers handed to `batch_write`, the printed lines, the error reports,
      `total_generated` and the progress count. */
  datatype RunState = RunState(
    buffer: seq<string>,
    batches: seq<seq<string>>,
    stdout: seq<string>,
    errors: seq<(WorkItem, string)>,
    total: nat,
    progress: nat)

  const Start: RunState := RunState([], [], [], [], 0, 0)

  /** The invariant of the loop after the items `done` have been handled: counts
      and reports match `done`, the buffer stays under the flush threshold, every
      flushed batch reached it, and the batches followed by the buffer (or the
      printed lines) are the usernames of `done` in order. */
  predicate Accounted(task: Task, toFile: bool, done: seq<WorkItem>, st: RunState) {
    && st.progress == |done|
    && st.total == |Usernames(task, done)|
    && st.errors == Failures(task, done)
    && |st.buffer| < WriteBufferSize
    && (forall i :: 0 <= i < |st.batches| ==> |st.batches[i]| >= WriteBufferSize)
    && (toFile ==> st.stdout == [] && Flatten(st.batches) + st.buffer == Usernames(task, done))
    && (!toFile ==> st.buffer == [] && st.batches == [] && st.stdout == Usernames(task, done))
  }

  /** The state once the remainder has been flushed. */
  predicate Finished(task: Task, toFile: bool, done: seq<WorkItem>, st: RunState) {
    && st.progress == |done|
    && st.total == |Usernames(task, done)|
    && st.errors == Failures(task, done)
    && st.buffer == []
    && (forall i :: 0 <= i < |st.batches| ==> st.batches[i] != [])
    && (forall i :: 0 <= i < |st.batches| - 1 ==> |st.batches[i]| >= WriteBufferSize)
    && (toFile ==> st.stdout == [] && Flatten(st.batches) == Usernames(task, done))
    && (!toFile ==> st.batches == [] && st.stdout == Usernames(task, done))
  }

  lemma StartAccounted(task: Task, toFile: bool)
    ensures Accounted(task, toFile, [], Start)
  {
    assert Flatten<string>([]) == [];
  }

  lemma FlattenSnoc(batches: seq<seq<string>>, b: seq<string>)
    ensures Flatten(batches + [b]) == Flatten(batches) + b
  {
    FlattenAppend(batches, [b]);
    assert Flatten([b]) == b + Flatten<string>([]);
  }

  /** The state after one completed item: progress advances by one, the usernames
      are counted, a failure is reported; for the file they join the buffer, which
      is written out whole as one batch and emptied once it holds 1000 lines or
      more; otherwise they are printed. */
  predicate Completed(task: Task, toFile: bool, st: RunState, item: WorkItem, st': RunState) {
    && st'.progress == st.progress + 1
    && st'.total == st.total + |Produced(task, item)|
    && st'.errors == st.errors + Report(task, item)
    && (toFile ==>
          && st'.stdout == st.stdout
          && var full := st.buffer + Produced(task, item);
             if |full| >= WriteBufferSize then st'.batches == st.batches + [full] && st'.buffer == []
             else st'.batches == st.batches && st'.buffer == full)
    && (!toFile ==>
          st'.stdout == st.stdout + Produced(task, item) && st'.buffer == st.buffer && st'.batches == st.batches)
  }

  /** Handling one completed item keeps the accounting invariant. */
  lemma CompletedAccounted(task: Task, toFile: bool, done: seq<WorkItem>, st: RunState, item: WorkItem, st': RunState)
    requires Accounted(task, toFile, done, st)
    requires Completed(task, toFile, st, item, st')
    ensures Accounted(task, toFile, done + [item], st')
    ensures st.batches <= st'.batches && |st'.batches| <= |st.batches| + 1
  {
    UsernamesSnoc(task, done, item);
    if toFile {
      CompletedToFile(task, done, st, item, st');
    }
  }

  lemma CompletedToFile(task: Task, done: seq<WorkItem>, st: RunState, item: WorkItem, st': RunState)
    requires Accounted(task, true, done, st)
    requires Completed(task, true, st, item, st')
    requires Usernames(task, done + [item]) == Usernames(task, done) + Produced(task, item)
    ensures Flatten(st'.batches) + st'.buffer == Usernames(task, done + [item])
    ensures |st'.buffer| < WriteBufferSize
    ensures forall i :: 0 <= i < |st'.batches| ==> |st'.batches[i]| >= WriteBufferSize
    ensures st.batches <= st'.batches && |st'.batches| <= |st.batches| + 1
  {
    var full := st.buffer + Produced(task, item);
    var u := Usernames(task, done + [item]);
    assert u == Flatten(st.batches) + full by {
      assert Usernames(task, done) == Flatten(st.batches) + st.buffer;
    }
    if |full| >= WriteBufferSize {
      assert Flatten(st'.batches) == Flatten(st.batches) + full by {
        FlattenSnoc(st.batches, full);
      }
      forall i | 0 <= i < |st'.batches|
        ensures |st'.batches[i]| >= WriteBufferSize
      {
        if i < |st.batches| {
          assert st'.batches[i] == st.batches[i];
        }
      }
      assert st'.buffer == [];
      assert Flatten(st'.batches) + st'.buffer == Flatten(st'.batches);
    }
  }

  /** The body of `for future in as_completed(futures)` for one completed item. */
  method HandleCompleted(task: Task, toFile: bool, ghost done: seq<WorkItem>, st: RunState, item: WorkItem)
    returns (st': RunState)
    requires Accounted(task, toFile, done, st)
    ensures Completed(task, toFile, st, item, st')
    ensures Accounted(task, toFile, done + [item], st')
    ensures st.batches <= st'.batches && |st'.batches| <= |st.batches| + 1
  {
    var result := task(item);
    match result {
      case Success(usernames) =>
        var buffer, batches, stdout := st.buffer, st.batches, st.stdout;
        if toFile {
          buffer := buffer + usernames;
          if |buffer| >= WriteBufferSize {
            batches := batches + [buffer];
            buffer := [];
          }
        } else {
          stdout := stdout + usernames;
        }
        st' := RunState(buffer, batches, stdout, st.errors, st.total + |usernames|, st.progress + 1);
      case Failure(e) =>
        st' := st.(errors := st.errors + [(item, e)], progress := st.progress + 1);
    }
    CompletedAccounted(task, toFile, done, st, item, st');
  }

  /** `for future in as_completed(futures)`: one chunk, in completion order. */
  method HandleChunk(task: Task, toFile: bool, ghost done: seq<WorkItem>, st: RunState, order: seq<WorkItem>)
    returns (st': RunState)
    requires Accounted(task, toFile, done, st)
    ensures Accounted(task, toFile, done + order, st')
    ensures st.batches <= st'.batches
  {
    st' := st;
    assert done + order[..0] == done;
    for j := 0 to |order|
      invariant Accounted(task, toFile, done + order[..j], st')
      invariant st.batches <= st'.batches
    {
      st' := HandleCompleted(task, toFile, done + order[..j], st', order[j]);
      assert done + order[..j + 1] == done + order[..j] + [order[j]];
    }
    assert order[..|order|] == order;
  }

  /** `if output_file and output_buffer: batch_write(output_file, output_buffer)` */
  method FlushRemainder(task: Task, toFile: bool, ghost done: seq<WorkItem>, st: RunState)
    returns (st': RunState)
    requires Accounted(task, toFile, done, st)
    ensures Finished(task, toFile, done, st')
    ensures st' == if toFile && st.buffer != [] then st.(batches := st.batches + [st.buffer], buffer := []) else st
  {
    st' := st;
    if toFile && st.buffer != [] {
      FlattenSnoc(st.batches, st.buffer);
      st' := st.(batches := st.batches + [st.buffer], buffer := []);
    }
  }

  lemma FlattenPrefixSnoc(orders: seq<seq<WorkItem>>, k: nat)
    requires k < |orders|
    ensures Flatten(orders[..k + 1]) == Flatten(orders[..k]) + orders[k]
  {
    assert orders[..k + 1] == orders[..k] + [orders[k]];
    FlattenAppend(orders[..k], [orders[k]]);
    assert Flatten([orders[k]]) == orders[k] + Flatten<WorkItem>([]);
  }

  /** Reading one more chunk from position `pos` of the source. */
  lemma ChunksStep(items: seq<WorkItem>, pos: nat, size: nat)
    requires size > 0 && pos < |items|
    ensures Chunks(items[pos..], size)
         == [Take(items[pos..], size)] + Chunks(items[pos + |Take(items[pos..], size)|..], size)
  {
    assert items[pos..][|Take(items[pos..], size)|..] == items[pos + |Take(items[pos..], size)|..];
  }

  /** When the chunk read at `pos` is non-empty it is chunk `k`, and the chunks
      after it are those of the rest of the source. */
  lemma ChunksAdvance(items: seq<WorkItem>, pos: nat, size: nat, chunks: seq<seq<WorkItem>>, k: nat)
    requires size > 0 && pos <= |items| && k <= |chunks|
    requires chunks[k..] == Chunks(items[pos..], size)
    requires Take(items[pos..], size) != []
    ensures k < |chunks| && chunks[k] == Take(items[pos..], size)
    ensures chunks[k + 1..] == Chunks(items[pos + |Take(items[pos..], size)|..], size)
  {
    ChunksStep(items, pos, size);
    assert chunks[k + 1..] == chunks[k..][1..];
  }

  /** When the chunk read at `pos` is empty every chunk has been read. */
  lemma ChunksExhausted(items: seq<WorkItem>, pos: nat, size: nat, chunks: seq<seq<WorkItem>>, k: nat)
    requires size > 0 && pos <= |items| && k <= |chunks|
    requires chunks[k..] == Chunks(items[pos..], size)
    requires Take(items[pos..], size) == []
    ensures k == |chunks|
  {
    assert items[pos..] == [];
  }

  /** The `while True` loop: reads chunk after chunk until the source is exhausted
      and hands each chunk's items to the aggregation loop in completion order. */
  method ProcessChunks(task: Task, items: seq<WorkItem>, size: nat, toFile: bool, orders: seq<seq<WorkItem>>)
    returns (st: RunState)
    requires size > 0 && CompletionOrders(items, size, orders)
    ensures Accounted(task, toFile, Flatten(orders), st)
  {
    st := Start;
    ghost var chunks := Chunks(items, size);
    assert |orders| == |chunks|;
    ghost var done: seq<WorkItem> := [];
    StartAccounted(task, toFile);
    var pos, k := 0, 0;
    while true
      invariant 0 <= pos <= |items| && 0 <= k <= |chunks|
      invariant chunks[k..] == Chunks(items[pos..], size)
      invariant done == Flatten(orders[..k])
      invariant Accounted(task, toFile, done, st)
      decreases |items| - pos
    {
      var chunk := Take(items[pos..], size);
      if chunk == [] {
        ChunksExhausted(items, pos, size, chunks, k);
        assert orders[..k] == orders;
        break;
      }
      ChunksAdvance(items, pos, size, chunks, k);
      st := HandleChunk(task, toFile, done, st, orders[k]);
      FlattenPrefixSnoc(orders, k);
      done := done + orders[k];
      pos, k := pos + |chunk|, k + 1;
    }
  }

  /** `run_processing`: returns `total_generated` (or the executor's error for a
      non-positive worker count) and the final state; `orders` gives the order in
      which each chunk's items complete. */
  method RunProcessing(task: Task, items: seq<WorkItem>, workers: int, toFile: bool, orders: seq<seq<WorkItem>>)
    returns (outcome: Result<nat, string>, st: RunState)
    requires workers > 0 ==> CompletionOrders(items, workers * ChunkFactor, orders)
    ensures workers <= 0 ==> outcome == Failure(MaxWorkersError) && st == Start
    ensures workers > 0 ==> outcome == Success(|Usernames(task, items)|)
    ensures workers > 0 ==> Finished(task, toFile, Flatten(orders), st)
    ensures workers > 0 ==> multiset(Usernames(task, Flatten(orders))) == multiset(Usernames(task, items))
    ensures workers > 0 && toFile ==> FileText(st.batches) == Lines(Usernames(task, Flatten(orders)))
  {
    if workers <= 0 {
      return Failure(MaxWorkersError), Start;
    }
    var size := workers * ChunkFactor;
    st := ProcessChunks(task, items, size, toFile, orders);
    st := FlushRemainder(task, toFile, Flatten(orders), st);
    CompletionIsPermutation(items, size, orders);
    UsernamesPermutation(task, Flatten(orders), items);
    UsernamesCountPermutation(task, Flatten(orders), items);
    FileTextIsLines(st.batches);
    outcome := Success(st.total);
  }
}
