/** Catch-up of committed blocks: chunked serving and sharded fetching with retries. */
module Sync {
  import opened Wrappers
  import opened Bytes
  import opened Blocks
  import opened Merkle

  datatype Chunk = Chunk(blocks: seq<Block>, eof: bool, err: string)

  function BlocksOf(chunks: seq<Chunk>): seq<Block> {
    if chunks == [] then [] else chunks[0].blocks + BlocksOf(chunks[1..])
  }

  // ---- Server ----

  /** The part of [from..to], counted from one, that a chain has. */
  function Clamped(all: seq<Block>, from: int, upto: int): seq<Block> {
    var lo := if from < 1 then 1 else from;
    var hi := if upto > |all| then |all| else upto;
    if lo > hi then [] else all[lo - 1..hi]
  }

  function ChunksFrom(all: seq<Block>, cursor: int, upto: int, size: int): seq<Chunk>
    requires 1 <= cursor && upto <= |all| && size >= 1
    decreases upto - cursor
  {
    if cursor > upto then []
    else
      var end := if cursor + size - 1 > upto then upto else cursor + size - 1;
      [Chunk(all[cursor - 1..end], end == upto, "")] + ChunksFrom(all, cursor + size, upto, size)
  }

  /** The chunks that answer a request. */
  function Chunks(all: seq<Block>, from: int, upto: int, size: int): seq<Chunk>
    requires size >= 1
  {
    var lo := if from < 1 then 1 else from;
    var hi := if upto > |all| then |all| else upto;
    if lo > hi then [Chunk([], true, "")] else ChunksFrom(all, lo, hi, size)
  }

  lemma NextChunk(all: seq<Block>, cursor: int, upto: int, size: int)
    requires 1 <= cursor && upto <= |all| && size >= 1
    ensures var end := if cursor + size - 1 > upto then upto else cursor + size - 1;
            ChunksFrom(all, cursor, upto, size) ==
              if cursor > upto then []
              else [Chunk(all[cursor - 1..end], end == upto, "")] + ChunksFrom(all, cursor + size, upto, size)
  {
  }

  lemma Shift(front: seq<Chunk>, c: Chunk, rest: seq<Chunk>)
    ensures front + ([c] + rest) == front + [c] + rest
  {
  }

  lemma ChunksAre(all: seq<Block>, from: int, upto: int, size: int)
    requires size >= 1
    ensures var lo, hi := if from < 1 then 1 else from, if upto > |all| then |all| else upto;
            Chunks(all, from, upto, size) ==
              if lo > hi then [Chunk([], true, "")] else ChunksFrom(all, lo, hi, size)
  {
    hide ChunksFrom;
  }

  /** Sends chunk after chunk; the stream takes `sendable` of them, then fails. */
  method StreamBlocks(all: seq<Block>, fromIndex: int, toIndex: int, chunkSize: int, sendable: nat)
    returns (sent: seq<Chunk>)
    requires chunkSize >= 1
    ensures var whole := Chunks(all, fromIndex, toIndex, chunkSize);
            sent <= whole && (|sent| == sendable < |whole| || (sent == whole && |sent| <= sendable))
  {
    hide ChunksFrom, Chunks;
    var from, upto := fromIndex, toIndex;
    ChunksAre(all, fromIndex, toIndex, chunkSize);
    if from < 1 {
      from := 1;
    }
    if upto > |all| {
      upto := |all|;
    }
    if from > upto {
      return if sendable > 0 then [Chunk([], true, "")] else [];
    }
    sent := [];
    var cursor := from;
    ghost var whole := ChunksFrom(all, from, upto, chunkSize);
    assert whole == Chunks(all, fromIndex, toIndex, chunkSize);
    while cursor <= upto
      invariant from <= cursor && |sent| <= sendable
      invariant sent + ChunksFrom(all, cursor, upto, chunkSize) == whole
      decreases upto - cursor
    {
      NextChunk(all, cursor, upto, chunkSize);
      if |sent| == sendable {
        assert sent == whole[..|sent|];
        return;
      }
      var end := cursor + chunkSize - 1;
      if end > upto {
        end := upto;
      }
      var chunk := Chunk(all[cursor - 1..end], end == upto, "");
      Shift(sent, chunk, ChunksFrom(all, cursor + chunkSize, upto, chunkSize));
      sent := sent + [chunk];
      cursor := cursor + chunkSize;
    }
    NextChunk(all, cursor, upto, chunkSize);
  }

  /** Only the last chunk says so, and none carries an error. */
  predicate WellMarked(chunks: seq<Chunk>) {
    forall i | 0 <= i < |chunks| :: chunks[i].err == "" && (chunks[i].eof <==> i == |chunks| - 1)
  }

  lemma {:induction false} ChunksFromAre(all: seq<Block>, cursor: int, upto: int, size: int)
    requires 1 <= cursor <= upto <= |all| && size >= 1
    ensures var cs := ChunksFrom(all, cursor, upto, size);
            && cs != [] && WellMarked(cs) && BlocksOf(cs) == all[cursor - 1..upto]
            && (forall i | 0 <= i < |cs| :: 1 <= |cs[i].blocks| <= size)
            && (forall i | 0 <= i < |cs| - 1 :: |cs[i].blocks| == size)
    decreases upto - cursor
  {
    var cs := ChunksFrom(all, cursor, upto, size);
    if cursor + size <= upto {
      ChunksFromAre(all, cursor + size, upto, size);
      var rest := ChunksFrom(all, cursor + size, upto, size);
      assert cs[1..] == rest;
      assert forall i | 1 <= i < |cs| :: cs[i] == rest[i - 1];
      assert all[cursor - 1..upto] == all[cursor - 1..cursor + size - 1] + all[cursor + size - 1..upto];
    } else {
      assert ChunksFrom(all, cursor + size, upto, size) == [];
    }
  }

  /** The chunks concatenate to the clamped range, all but the last have just the asked
      size, and the last one, and only it, ends the stream. */
  lemma ChunksAreRange(all: seq<Block>, from: int, upto: int, size: int)
    requires size >= 1
    ensures var cs := Chunks(all, from, upto, size);
            && cs != [] && WellMarked(cs) && BlocksOf(cs) == Clamped(all, from, upto)
            && (forall i | 0 <= i < |cs| :: |cs[i].blocks| <= size)
            && (forall i | 0 <= i < |cs| - 1 :: |cs[i].blocks| == size)
  {
    var lo := if from < 1 then 1 else from;
    var hi := if upto > |all| then |all| else upto;
    if lo <= hi {
      ChunksFromAre(all, lo, hi, size);
    } else {
      assert BlocksOf([Chunk([], true, "")]) == [] + BlocksOf([]);
    }
  }

  // ---- Client ----

  /** What arrives on a stream: chunks, then its end or a decoding error. */
  datatype Stream = Stream(chunks: seq<Chunk>, broken: bool)

  datatype FetchError = NoStream | BadChunk | ServerError

  function Onto(front: seq<Block>, r: Result<seq<Block>, FetchError>): Result<seq<Block>, FetchError> {
    match r
    case Err(e) => Err(e)
    case Ok(rest) => Ok(front + rest)
  }

  lemma OntoOnto(a: seq<Block>, b: seq<Block>, r: Result<seq<Block>, FetchError>)
    ensures Onto(a, Onto(b, r)) == Onto(a + b, r) && Onto([], r) == r
  {
    if r.Ok? {
      assert a + (b + r.value) == a + b + r.value;
      assert [] + r.value == r.value;
    }
  }

  function CollectFrom(chunks: seq<Chunk>, broken: bool): Result<seq<Block>, FetchError> {
    if chunks == [] then if broken then Err(BadChunk) else Ok([])
    else if chunks[0].err != "" then Err(ServerError)
    else if chunks[0].eof then Ok(chunks[0].blocks)
    else
      Onto(chunks[0].blocks, CollectFrom(chunks[1..], broken))
  }

  /** `stream` is absent when it cannot be opened. */
  function Fetched(stream: Option<Stream>): Result<seq<Block>, FetchError> {
    if stream.None? then Err(NoStream) else CollectFrom(stream.value.chunks, stream.value.broken)
  }

  method FetchShardBlocks(stream: Option<Stream>) returns (r: Result<seq<Block>, FetchError>)
    ensures r == Fetched(stream)
  {
    if stream.None? {
      return Err(NoStream);
    }
    var chunks := stream.value.chunks;
    var collected: seq<Block> := [];
    OntoOnto([], [], Fetched(stream));
    assert chunks[0..] == chunks;
    for i := 0 to |chunks|
      invariant Fetched(stream) == Onto(collected, CollectFrom(chunks[i..], stream.value.broken))
    {
      assert chunks[i..][1..] == chunks[i + 1..];
      OntoOnto(collected, chunks[i].blocks, CollectFrom(chunks[i + 1..], stream.value.broken));
      if chunks[i].err != "" {
        return Err(ServerError);
      }
      collected := collected + chunks[i].blocks;
      if chunks[i].eof {
        return Ok(collected);
      }
    }
    assert chunks[|chunks|..] == [] && collected + [] == collected;
    r := if stream.value.broken then Err(BadChunk) else Ok(collected);
  }

  /** The chunk that decides a fetch: an error, the end, or none when the stream stops. */
  ghost predicate DecidedAt(chunks: seq<Chunk>, k: nat) {
    && k <= |chunks| && (forall i | 0 <= i < k :: chunks[i].err == "" && !chunks[i].eof)
    && (k < |chunks| ==> chunks[k].err != "" || chunks[k].eof)
  }

  /** What a fetch makes of any stream: the blocks up to the end, or an error. */
  lemma {:induction false} FetchedExactly(chunks: seq<Chunk>, broken: bool) returns (k: nat)
    ensures DecidedAt(chunks, k)
    ensures var r := Fetched(Some(Stream(chunks, broken)));
            && (r == Err(ServerError) <==> k < |chunks| && chunks[k].err != "")
            && (r == Err(BadChunk) <==> k == |chunks| && broken)
            && (r.Ok? <==> if k < |chunks| then chunks[k].err == "" else !broken)
            && (r.Ok? ==> r.value == BlocksOf(if k < |chunks| then chunks[..k + 1] else chunks))
    ensures Fetched(None) == Err(NoStream)
  {
    if chunks == [] {
      k := 0;
    } else if chunks[0].err != "" || chunks[0].eof {
      k := 0;
      assert chunks[..1][0] == chunks[0] && chunks[..1][1..] == [];
      assert BlocksOf(chunks[..1]) == chunks[0].blocks + BlocksOf([]);
    } else {
      var rest := chunks[1..];
      var j := FetchedExactly(rest, broken);
      k := j + 1;
      forall i | 0 <= i < k ensures chunks[i].err == "" && !chunks[i].eof {
        assert i > 0 ==> chunks[i] == rest[i - 1];
      }
      if k < |chunks| {
        assert chunks[k] == rest[j];
        assert chunks[..k + 1][1..] == rest[..j + 1];
      }
    }
  }

  /** Whatever cuts a stream of well-marked chunks, a fetch that succeeds got a
      prefix of what was served; uncut, it got all. */
  lemma {:induction false} CutFetch(whole: seq<Chunk>, k: nat, broken: bool)
    requires WellMarked(whole) && k <= |whole|
    ensures var r := CollectFrom(whole[..k], broken);
            && (r.Ok? ==> r.value <= BlocksOf(whole))
            && (k == |whole| && whole != [] ==> r == Ok(BlocksOf(whole)))
  {
    if k > 0 {
      var rest := whole[1..];
      assert WellMarked(rest) by {
        assert forall i | 0 <= i < |rest| :: rest[i] == whole[i + 1];
      }
      assert whole[..k][1..] == rest[..k - 1];
      assert whole[0].eof <==> rest == [];
      assert BlocksOf(whole) == whole[0].blocks + BlocksOf(rest);
      assert rest == [] ==> BlocksOf(whole) == whole[0].blocks;
      CutFetch(rest, k - 1, broken);
    }
  }

  // ---- Sharded fetch ----

  /** `link(s, i)` is what arrives when source `s` is asked for shard `i`. */
  type Link = (nat, nat) -> Option<Stream>

  function ShardFrom(from: int, size: int, i: nat): int {
    from + i * size
  }

  function ShardTo(from: int, upto: int, size: int, i: nat): int {
    var end := ShardFrom(from, size, i) + size - 1;
    if end > upto then upto else end
  }

  function Attempt(link: Link, i: nat, n: nat, a: nat): Result<seq<Block>, FetchError>
    requires n > 0
  {
    Fetched(link((i + a) % n, i))
  }

  /** Blocks of the first attempt at or after `a` that succeeds. */
  function FirstFetched(link: Link, i: nat, n: nat, a: nat): Option<seq<Block>>
    requires n > 0 && a <= n
    decreases n - a
  {
    if a == n then None
    else
      match Attempt(link, i, n, a)
      case Ok(blocks) => Some(blocks)
      case Err(_) => FirstFetched(link, i, n, a + 1)
  }

  /** A shard fails when nothing came, and also when nothing but an empty answer
      came after a failed attempt. */
  predicate ShardFails(link: Link, i: nat, n: nat)
    requires n > 0
  {
    var got := FirstFetched(link, i, n, 0);
    got.None? || (got.value == [] && Attempt(link, i, n, 0).Err?)
  }

  /** The blocks of the first `k` shards in order, none if a shard failed. */
  function Gathered(link: Link, n: nat, k: nat): Option<seq<Block>>
    requires n > 0
  {
    if k == 0 then Some([])
    else
      match Gathered(link, n, k - 1)
      case None => None
      case Some(all) =>
        if ShardFails(link, k - 1, n) then None else Some(all + FirstFetched(link, k - 1, n, 0).value)
  }

  function NumShards(total: int, size: int): nat
    requires total >= 1 && size >= 1
  {
    (total + size - 1) / size
  }

  datatype ParallelError = NoSources | ShardFailed | WrongCount

  function ParallelFetch(link: Link, from: int, upto: int, n: nat, size: int): Result<seq<Block>, ParallelError>
    requires size >= 1
  {
    if n == 0 then Err(NoSources)
    else if upto - from + 1 <= 0 then Ok([])
    else
      match Gathered(link, n, NumShards(upto - from + 1, size))
      case None => Err(ShardFailed)
      case Some(all) => if |all| == upto - from + 1 then Ok(all) else Err(WrongCount)
  }

  /** A shard's result: an error without blocks if it failed, else its blocks. */
  ghost predicate ShardDone(link: Link, i: nat, n: nat, blocks: seq<Block>, err: bool)
    requires n > 0
  {
    && ((err && blocks == []) <==> ShardFails(link, i, n))
    && (!ShardFails(link, i, n) ==> FirstFetched(link, i, n, 0) == Some(blocks))
  }

  /** One shard: source after source, until one answers. */
  method FetchShard(link: Link, idx: nat, numSources: nat) returns (blocks: seq<Block>, err: bool)
    requires numSources > 0
    ensures ShardDone(link, idx, numSources, blocks, err)
  {
    blocks, err := [], false;
    for attempt := 0 to numSources
      invariant blocks == [] && (err <==> attempt > 0)
      invariant attempt > 0 ==> Attempt(link, idx, numSources, 0).Err?
      invariant FirstFetched(link, idx, numSources, 0) == FirstFetched(link, idx, numSources, attempt)
    {
      var src := (idx + attempt) % numSources;
      var r := FetchShardBlocks(link(src, idx));
      assert r == Attempt(link, idx, numSources, attempt);
      if r.Ok? {
        blocks := r.value;
        return;
      }
      err := true;
    }
  }

  method FetchBlocksParallel(link: Link, from: int, upto: int, numSources: nat, shardSize: int)
    returns (r: Result<seq<Block>, ParallelError>)
    requires shardSize >= 1
    ensures r == ParallelFetch(link, from, upto, numSources, shardSize)
  {
    hide ShardFails, FirstFetched, NumShards;
    if numSources == 0 {
      return Err(NoSources);
    }
    var totalCount := upto - from + 1;
    if totalCount <= 0 {
      return Ok([]);
    }
    var numShards := NumShards(totalCount, shardSize);
    var results := new (seq<Block>, bool)[numShards](_ => ([], false));
    for i := 0 to numShards
      invariant forall j | 0 <= j < i :: ShardDone(link, j, numSources, results[j].0, results[j].1)
    {
      var blocks, err := FetchShard(link, i, numSources);
      results[i] := (blocks, err);
    }
    var all: seq<Block> := [];
    for i := 0 to numShards
      invariant Gathered(link, numSources, i) == Some(all)
    {
      assert ShardDone(link, i, numSources, results[i].0, results[i].1);
      if results[i].1 && |results[i].0| == 0 {
        GatherFailed(link, numSources, i + 1, numShards);
        return Err(ShardFailed);
      }
      all := all + results[i].0;
    }
    r := if |all| == totalCount then Ok(all) else Err(WrongCount);
  }

  lemma {:induction false} GatherFailed(link: Link, n: nat, k: nat, m: nat)
    requires n > 0 && k <= m && Gathered(link, n, k).None?
    ensures Gathered(link, n, m).None?
    decreases m
  {
    if k < m {
      GatherFailed(link, n, k, m - 1);
    }
  }

  // ---- Honest sources ----

  /** The stream carries a beginning of what a holder of the first `held` blocks
      serves for [from..to]. */
  ghost predicate Serves(chain: seq<Block>, from: int, upto: int, s: Stream) {
    exists held: nat, size: int, k: nat {:trigger Chunks(chain[..held], from, upto, size)[..k]} ::
      held <= |chain| && size >= 1 && k <= |Chunks(chain[..held], from, upto, size)|
      && s.chunks == Chunks(chain[..held], from, upto, size)[..k]
  }

  /** All sources hold beginnings of one chain; links fail as they like. */
  ghost predicate Honest(link: Link, chain: seq<Block>, from: int, upto: int, n: nat, size: int) {
    forall s: nat, i: nat | s < n && link(s, i).Some? ::
      Serves(chain, ShardFrom(from, size, i), ShardTo(from, upto, size, i), link(s, i).value)
  }

  /** `blocks` is the stretch of the chain that starts at `from`. */
  ghost predicate Stretch(chain: seq<Block>, from: int, blocks: seq<Block>) {
    1 <= from && (blocks == [] || (from - 1 + |blocks| <= |chain| && blocks == chain[from - 1..from - 1 + |blocks|]))
  }

  lemma HonestFetch(chain: seq<Block>, from: int, upto: int, s: Stream)
    requires Serves(chain, from, upto, s) && 1 <= from <= upto
    ensures var r := CollectFrom(s.chunks, s.broken);
            r.Ok? ==> Stretch(chain, from, r.value) && |r.value| <= upto - from + 1
  {
    hide Chunks, CollectFrom, BlocksOf, WellMarked;
    var held: nat, size: int, k: nat :| held <= |chain| && size >= 1 && k <= |Chunks(chain[..held], from, upto, size)|
      && s.chunks == Chunks(chain[..held], from, upto, size)[..k];
    ChunksAreRange(chain[..held], from, upto, size);
    CutFetch(Chunks(chain[..held], from, upto, size), k, s.broken);
    var r := CollectFrom(s.chunks, s.broken);
    if r.Ok? {
      StretchOfClamped(chain, held, from, upto, r.value);
    }
  }

  lemma StretchOfClamped(chain: seq<Block>, held: nat, from: int, upto: int, blocks: seq<Block>)
    requires held <= |chain| && 1 <= from <= upto && blocks <= Clamped(chain[..held], from, upto)
    ensures Stretch(chain, from, blocks) && |blocks| <= upto - from + 1
  {
    var whole := Clamped(chain[..held], from, upto);
    assert blocks == whole[..|blocks|];
  }

  lemma {:induction false} HonestShard(link: Link, chain: seq<Block>, from: int, upto: int, n: nat, size: int, i: nat,
                                       a: nat)
    requires Honest(link, chain, from, upto, n, size) && n > 0 && a <= n
    requires 1 <= ShardFrom(from, size, i) <= ShardTo(from, upto, size, i)
    ensures var got := FirstFetched(link, i, n, a);
            got.Some? ==> Stretch(chain, ShardFrom(from, size, i), got.value)
                          && |got.value| <= ShardTo(from, upto, size, i) - ShardFrom(from, size, i) + 1
    decreases n - a
  {
    if a < n {
      var s := (i + a) % n;
      if link(s, i).Some? {
        HonestFetch(chain, ShardFrom(from, size, i), ShardTo(from, upto, size, i), link(s, i).value);
      }
      HonestShard(link, chain, from, upto, n, size, i, a + 1);
    }
  }

  /** The attempt that reaches source `s` for shard `i`. */
  lemma AttemptAt(i: nat, n: nat, s: nat) returns (a: nat)
    requires s < n
    ensures a < n && (i + a) % n == s
  {
    var r := i % n;
    a := if s >= r then s - r else s + n - r;
    var q := i / n;
    assert i == q * n + r;
    var k := if s >= r then q else q + 1;
    OneMore(q, n);
    Unique(i + a, n, k, s);
  }

  lemma {:induction false} NoneFetched(link: Link, i: nat, n: nat, a: nat)
    requires n > 0 && a <= n
    ensures FirstFetched(link, i, n, a).None? <==> forall b: nat | a <= b < n :: Attempt(link, i, n, b).Err?
    decreases n - a
  {
    if a < n {
      NoneFetched(link, i, n, a + 1);
    }
  }

  /** A shard is given up exactly when every source failed: the rotation leaves no
      source out. */
  lemma EverySourceTried(link: Link, i: nat, n: nat)
    requires n > 0
    ensures FirstFetched(link, i, n, 0).None? <==> forall s: nat | s < n :: Fetched(link(s, i)).Err?
  {
    NoneFetched(link, i, n, 0);
    if forall b: nat | b < n :: Attempt(link, i, n, b).Err? {
      forall s: nat | s < n ensures Fetched(link(s, i)).Err? {
        var a := AttemptAt(i, n, s);
        assert Attempt(link, i, n, a).Err?;
      }
    }
  }

  /** Shard `i` starts with source i modulo `n` and goes on with the one behind it; the
      first that answers decides. */
  lemma FirstAnswer(link: Link, i: nat, n: nat, order: seq<nat>, blocks: seq<Block>)
    requires 0 < |order| <= n && forall a | 0 <= a < |order| :: order[a] == (i + a) % n
    requires forall a | 0 <= a < |order| - 1 :: Fetched(link(order[a], i)).Err?
    requires Fetched(link(order[|order| - 1], i)) == Ok(blocks)
    ensures FirstFetched(link, i, n, 0) == Some(blocks)
  {
    AnswerFrom(link, i, n, order, 0);
  }

  lemma {:induction false} AnswerFrom(link: Link, i: nat, n: nat, order: seq<nat>, a: nat)
    requires a < |order| <= n && forall b | 0 <= b < |order| :: order[b] == (i + b) % n
    requires forall b | a <= b < |order| - 1 :: Fetched(link(order[b], i)).Err?
    ensures FirstFetched(link, i, n, a) == FirstFetched(link, i, n, |order| - 1)
    decreases |order| - a
  {
    if a < |order| - 1 {
      assert Attempt(link, i, n, a) == Fetched(link(order[a], i));
      AnswerFrom(link, i, n, order, a + 1);
    }
  }

  lemma Rounded(total: int, size: int)
    requires total >= 1 && size >= 1
    ensures total <= NumShards(total, size) * size <= total + size - 1
  {
    var m := NumShards(total, size);
    assert total + size - 1 == m * size + (total + size - 1) % size;
  }

  lemma OneMore(i: nat, size: int)
    ensures (i + 1) * size == i * size + size && 0 * size == 0
  {
  }

  lemma ShardsPartition(from: int, upto: int, size: int, i: nat)
    requires from <= upto && size >= 1
    ensures ShardFrom(from, size, 0) == from
    ensures ShardFrom(from, size, i + 1) == ShardFrom(from, size, i) + size
    ensures i < NumShards(upto - from + 1, size) ==> from <= ShardFrom(from, size, i) <= upto
    ensures i >= NumShards(upto - from + 1, size) ==> ShardFrom(from, size, i) > upto
  {
    var total := upto - from + 1;
    var m := NumShards(total, size);
    Rounded(total, size);
    Scaled(i + 1, m, size);
    Scaled(m, i, size);
    Scaled(0, i, size);
    OneMore(i, size);
    hide NumShards;
  }

  /** One past the last block that the first `k` shards cover. */
  function CoveredTo(from: int, upto: int, size: int, k: nat): int {
    if ShardFrom(from, size, k) > upto then upto + 1 else ShardFrom(from, size, k)
  }

  /** The first answer for shard `i` is complete. */
  predicate Full(link: Link, from: int, upto: int, n: nat, size: int, i: nat)
    requires n > 0
  {
    var got := FirstFetched(link, i, n, 0);
    got.Some? && |got.value| == ShardTo(from, upto, size, i) - ShardFrom(from, size, i) + 1
  }

  predicate AllFull(link: Link, from: int, upto: int, n: nat, size: int, k: nat)
    requires n > 0
  {
    forall i: nat | i < k :: Full(link, from, upto, n, size, i)
  }

  lemma AllFullStep(link: Link, from: int, upto: int, n: nat, size: int, k: nat)
    requires n > 0
    ensures AllFull(link, from, upto, n, size, 0)
    ensures k > 0 ==>
              (AllFull(link, from, upto, n, size, k) <==>
                AllFull(link, from, upto, n, size, k - 1) && Full(link, from, upto, n, size, k - 1))
  {
    hide Full;
  }

  lemma StretchConcat(chain: seq<Block>, from: int, a: seq<Block>, b: seq<Block>)
    requires Stretch(chain, from, a) && Stretch(chain, from + |a|, b)
    ensures Stretch(chain, from, a + b)
  {
    if b != [] {
      var m := from - 1 + |a|;
      assert chain[from - 1..m + |b|] == chain[from - 1..m] + chain[m..m + |b|];
    } else {
      assert a + b == a;
    }
  }

  lemma StartsEmpty(chain: seq<Block>, from: int, size: int)
    requires 1 <= from && size >= 1
    ensures ShardFrom(from, size, 0) == from && Stretch(chain, from, [])
  {
  }

  /** Gathered shards never exceed their range, and if none is short they are
      exactly the chain's blocks. */
  lemma {:induction false} GatheredFits(link: Link, chain: seq<Block>, from: int, upto: int, n: nat, size: int, k: nat)
    requires 1 <= from <= upto && size >= 1 && n > 0 && Honest(link, chain, from, upto, n, size)
    requires k <= NumShards(upto - from + 1, size) && Gathered(link, n, k).Some?
    ensures var all, end := Gathered(link, n, k).value, CoveredTo(from, upto, size, k);
            && |all| <= end - from
            && (|all| == end - from ==> Stretch(chain, from, all))
            && (|all| == end - from <==> AllFull(link, from, upto, n, size, k))
  {
    hide ShardFrom, Honest, NumShards, Stretch, AllFull, FirstFetched, Attempt;
    ShardsPartition(from, upto, size, k);
    AllFullStep(link, from, upto, n, size, k);
    if k == 0 {
      StartsEmpty(chain, from, size);
    } else {
      ShardsPartition(from, upto, size, k - 1);
      GatheredFits(link, chain, from, upto, n, size, k - 1);
      HonestShard(link, chain, from, upto, n, size, k - 1, 0);
      AppendShard(chain, from, ShardFrom(from, size, k - 1), ShardTo(from, upto, size, k - 1) + 1,
                  Gathered(link, n, k - 1).value, FirstFetched(link, k - 1, n, 0).value);
    }
  }

  lemma AppendShard(chain: seq<Block>, from: int, mid: int, end: int, front: seq<Block>, got: seq<Block>)
    requires |front| <= mid - from && (|front| == mid - from ==> Stretch(chain, from, front))
    requires |got| <= end - mid && Stretch(chain, mid, got)
    ensures |front + got| <= end - from
    ensures |front + got| == end - from <==> |front| == mid - from && |got| == end - mid
    ensures |front + got| == end - from ==> Stretch(chain, from, front + got)
  {
    hide Stretch;
    if |front + got| == end - from {
      StretchConcat(chain, from, front, got);
    }
  }

  lemma {:induction false} FullGathers(link: Link, from: int, upto: int, n: nat, size: int, k: nat)
    requires 1 <= from <= upto && size >= 1 && n > 0 && k <= NumShards(upto - from + 1, size)
    requires AllFull(link, from, upto, n, size, k)
    ensures Gathered(link, n, k).Some?
  {
    if k > 0 {
      ShardsPartition(from, upto, size, k - 1);
      FullGathers(link, from, upto, n, size, k - 1);
      assert Full(link, from, upto, n, size, k - 1);
    }
  }

  /** When all sources hold beginnings of one chain, the fetch succeeds exactly when
      the first answer for every shard is complete, and then its result is exactly
      the chain's blocks [from..to], whatever failed on the way. */
  lemma FetchReassembles(link: Link, chain: seq<Block>, from: int, upto: int, n: nat, size: int)
    requires 1 <= from <= upto && size >= 1 && n > 0 && Honest(link, chain, from, upto, n, size)
    ensures var r := ParallelFetch(link, from, upto, n, size);
            && (r.Ok? <==> AllFull(link, from, upto, n, size, NumShards(upto - from + 1, size)))
            && (r.Ok? ==> upto <= |chain| && r.value == chain[from - 1..upto])
  {
    var m := NumShards(upto - from + 1, size);
    ShardsPartition(from, upto, size, m);
    hide Honest, NumShards, ShardFrom, AllFull;
    if Gathered(link, n, m).Some? {
      GatheredFits(link, chain, from, upto, n, size, m);
    }
    if AllFull(link, from, upto, n, size, m) {
      FullGathers(link, from, upto, n, size, m);
    }
  }

  lemma {:induction false} GatheredExactly(link: Link, n: nat, k: nat)
    requires n > 0
    ensures Gathered(link, n, k).None? <==> exists i: nat :: i < k && ShardFails(link, i, n)
  {
    hide ShardFails;
    if k > 0 {
      GatheredExactly(link, n, k - 1);
      if Gathered(link, n, k).None? && Gathered(link, n, k - 1).Some? {
        assert ShardFails(link, k - 1, n);
      }
    }
  }

  /** No source answers for the shard, or its first source fails and the first one that
      answers has nothing. */
  predicate GivenUp(link: Link, i: nat, n: nat)
    requires n > 0
  {
    || (forall s: nat | s < n :: Fetched(link(s, i)).Err?)
    || (Fetched(link(i % n, i)).Err? && FirstFetched(link, i, n, 0) == Some([]))
  }

  lemma FailsIsGivenUp(link: Link, i: nat, n: nat)
    requires n > 0
    ensures ShardFails(link, i, n) <==> GivenUp(link, i, n)
  {
    hide Fetched, FirstFetched;
    EverySourceTried(link, i, n);
  }

  /** A fetch ends with a failed shard exactly when it gives up on one that starts within
      the range. */
  lemma ShardFailedExactly(link: Link, from: int, upto: int, n: nat, size: int)
    requires size >= 1 && n > 0 && from <= upto
    ensures ParallelFetch(link, from, upto, n, size) == Err(ShardFailed) <==>
              exists i: nat :: ShardFrom(from, size, i) <= upto && GivenUp(link, i, n)
  {
    hide *;
    var m := NumShards(upto - from + 1, size);
    GatheredExactly(link, n, m);
    GatherEnds(link, from, upto, n, size);
    forall i: nat ensures i < m <==> ShardFrom(from, size, i) <= upto {
      ShardsPartition(from, upto, size, i);
    }
    forall i: nat ensures ShardFails(link, i, n) <==> GivenUp(link, i, n) {
      FailsIsGivenUp(link, i, n);
    }
  }

  lemma GatherEnds(link: Link, from: int, upto: int, n: nat, size: int)
    requires size >= 1 && n > 0 && from <= upto
    ensures ParallelFetch(link, from, upto, n, size) == Err(ShardFailed) <==>
              Gathered(link, n, NumShards(upto - from + 1, size)).None?
  {
  }
}
