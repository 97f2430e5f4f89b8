/** The resumable download of one release asset: a partial file, a sidecar naming whose bytes they
    are, and the final file, across interruptions, retries, kills and changes of identity. */
module Download {
  import opened Sequences
  import opened Texts
  import opened Bytes

  type Content = seq<Byte>

  /** What a sidecar records of an asset. */
  datatype Asset = Asset(id: int, size: int, url: string)

  datatype File = NoFile | File(bytes: Content)

  /** A write of the sidecar cut short leaves an open brace, which never parses. */
  datatype Sidecar = NoSidecar | Unreadable | Names(asset: Asset)

  datatype Disk = Disk(part: File, sidecar: Sidecar, final: File)

  const EMPTY: Disk := Disk(NoFile, NoSidecar, NoFile)

  const MARGIN: nat := 64 * 1024 * 1024

  /** A readable `Content-Range`: where its bytes begin, and the total unless it is `*`. */
  datatype Range = NoRange | Range(first: nat, total: int, known: bool)

  /** How a body stops: at its end, by an interruption, or at a chunk of which only some bytes
      could be stored. */
  datatype BodyEnd = Finished | Cut | WriteFails(chunk: Content, stored: nat)

  /** The answer to one request; `Refusal` is any status that is neither 2xx nor 206. */
  datatype Answer =
    | Unreachable
    | Refusal(status: nat)
    | Response(partial: bool, range: Range, chunks: seq<Content>, end: BodyEnd)

  /** What the server answers to the `n`th request, asking for the bytes from `start` on. */
  type Server = (nat, nat) -> Answer

  datatype Failure = Network | HttpStatus(status: nat) | WrongBytes | WriteError | NoSpace | InvalidSize

  datatype Ending = Complete | Fails(why: Failure)

  /** Every disk a kill could leave on the way, oldest first, the last one, and how it ended. */
  datatype Trail<T> = Trail(disks: seq<Disk>, last: Disk, end: T)

  function Before<T>(disks: seq<Disk>, t: Trail<T>): Trail<T> {
    t.(disks := disks + t.disks)
  }

  function SizeOf(f: File): int {
    if f.File? then |f.bytes| else -1
  }

  // --- One attempt.

  function Append(d: Disk, bytes: Content): Disk {
    d.(part := File((if d.part.File? then d.part.bytes else []) + bytes))
  }

  /** A write may be cut after any of its bytes. */
  function Growing(d: Disk, bytes: Content): seq<Disk> {
    seq(|bytes|, i requires 0 <= i < |bytes| => Append(d, bytes[..i+1]))
  }

  function Body(d: Disk, written: nat, size: int, chunks: seq<Content>, end: BodyEnd): Trail<Ending>
    decreases |chunks|
  {
    if chunks != [] then
      var w := written + |chunks[0]|;
      if w > size then Trail([], d, Fails(WrongBytes))
      else Before(Growing(d, chunks[0]), Body(Append(d, chunks[0]), w, size, chunks[1..], end))
    else
      match end
      case Finished => Trail([], d, if written != size then Fails(WrongBytes) else Complete)
      case Cut => Trail([], d, Fails(Network))
      case WriteFails(chunk, stored) =>
        if written + |chunk| > size then Trail([], d, Fails(WrongBytes))
        else
          var bytes := chunk[..if stored < |chunk| then stored else |chunk|];
          Trail(Growing(d, bytes), Append(d, bytes), Fails(WriteError))
  }

  /** The range continues the bytes already there. */
  predicate Continues(range: Range, start: nat, size: int) {
    range.Range? && range.first == start && (range.known ==> range.total == size)
  }

  function Attempt(d: Disk, start: nat, size: int, answer: Answer): Trail<Ending> {
    match answer
    case Unreachable => Trail([], d, Fails(Network))
    case Refusal(status) => Trail([], d, Fails(HttpStatus(status)))
    case Response(partial, range, chunks, end) =>
      if start > 0 && partial then
        if !Continues(range, start, size) then
          var gone := d.(part := NoFile);
          Trail([gone], gone, Fails(WrongBytes))
        else Body(d, start, size, chunks, end)
      else
        var blank := d.(part := File([]));
        Before([blank], Body(blank, 0, size, chunks, end))
  }

  // --- The retry loop and the whole call.

  datatype Result = Reused | Fetched(attempts: nat) | Failed(why: Failure, attempts: nat)

  predicate Retryable(why: Failure) {
    why == Network || why == WrongBytes || (why.HttpStatus? && why.status >= 500)
  }

  /** A partial file that cannot be resumed is dropped before the attempt. */
  function Prepared(d: Disk, size: int): Disk {
    if 0 <= SizeOf(d.part) < size then d else d.(part := NoFile)
  }

  function StartOf(d: Disk): nat {
    if d.part.File? then |d.part.bytes| else 0
  }

  /** Bytes that cannot belong to the asset are not kept. */
  function Cleaned(d: Disk, why: Failure): Disk {
    if why == WrongBytes then d.(part := NoFile) else d
  }

  /** One round of the loop: an attempt, then the rename or the cleaning up. */
  function Round(d: Disk, size: int, server: Server, n: nat): Trail<Ending> {
    var ready := Prepared(d, size);
    var t := Attempt(ready, StartOf(ready), size, server(n, StartOf(ready)));
    var next := if t.end.Complete? then t.last.(part := NoFile, final := t.last.part) else Cleaned(t.last, t.end.why);
    Trail([ready] + t.disks + [next], next, t.end)
  }

  function Tries(d: Disk, size: int, server: Server, retries: nat, n: nat): Trail<Result>
    requires n <= retries
    decreases retries - n
  {
    var t := Round(d, size, server, n);
    if t.end.Complete? then Trail(t.disks, t.last, Fetched(n + 1))
    else if !Retryable(t.end.why) || n >= retries then Trail(t.disks, t.last, Failed(t.end.why, n + 1))
    else Before(t.disks, Tries(t.last, size, server, retries, n + 1))
  }

  predicate Same(d: Disk, asset: Asset) {
    d.sidecar == Names(asset)
  }

  function Stage(d: Disk, asset: Asset, server: Server, free: nat, noted: bool, retries: nat): Trail<Result> {
    if !(0 < asset.size <= MAX_SAFE) then Trail([], d, Failed(InvalidSize, 0))
    else if Same(d, asset) && SizeOf(d.final) == asset.size then Trail([], d, Reused)
    else
      var one := if Same(d, asset) then d else d.(part := NoFile);
      var two := one.(final := NoFile);
      var have := if two.part.File? then |two.part.bytes| else 0;
      if free < asset.size - have + MARGIN then Trail([one, two], two, Failed(NoSpace, 0))
      else
        var three := two.(sidecar := Unreadable);
        if !noted then Trail([one, two, three], three, Failed(WriteError, 0))
        else
          var four := three.(sidecar := Names(asset));
          Before([one, two, three, four], Tries(four, asset.size, server, retries, 0))
  }

  function Discard(d: Disk): Trail<()> {
    var one := d.(final := NoFile);
    var two := one.(part := NoFile);
    var three := two.(sidecar := NoSidecar);
    Trail([one, two, three], three, ())
  }

  // --- What must hold at every kill.

  /** Which bytes each identity stands for. */
  type World = Asset -> Content

  predicate DiskOk(d: Disk, world: World) {
    d.sidecar.Names? ==>
      && (d.part.File? ==> d.part.bytes <= world(d.sidecar.asset))
      && (d.final.File? ==> |d.final.bytes| == d.sidecar.asset.size && d.final.bytes <= world(d.sidecar.asset))
  }

  predicate AllOk(disks: seq<Disk>, world: World) {
    forall i :: 0 <= i < |disks| ==> DiskOk(disks[i], world)
  }

  /** All bytes the body brings. */
  function BodyBytes(answer: Answer): Content
    requires answer.Response?
  {
    Flatten(answer.chunks) + if answer.end.WriteFails? then answer.end.chunk else []
  }

  /** Where the answer says its bytes begin. */
  predicate Announces(answer: Answer, offset: nat)
    requires answer.Response?
  {
    if answer.partial then answer.range.Range? && answer.range.first == offset else offset == 0
  }

  /** Whatever body comes, it is a prefix of the content at the announced offset. */
  ghost predicate Honest(answer: Answer, content: Content) {
    answer.Response? ==> forall k: nat :: Announces(answer, k) ==> k <= |content| && BodyBytes(answer) <= content[k..]
  }

  /** A partial answer to a request without a range, for bytes that are not the first. */
  predicate Unsolicited(start: nat, answer: Answer) {
    answer.Response? && start == 0 && answer.partial && !Announces(answer, 0)
  }

  ghost predicate ServerOk(server: Server, content: Content) {
    && (forall n: nat, start: nat :: Honest(server(n, start), content))
    && (forall n: nat :: !Unsolicited(0, server(n, 0)))
  }

  // --- One attempt keeps a prefix.

  lemma GrowingOk(d: Disk, bytes: Content, asset: Asset, world: World)
    requires d.part.File? && d.final.NoFile? && Same(d, asset) && d.part.bytes + bytes <= world(asset)
    ensures AllOk(Growing(d, bytes), world) && DiskOk(Append(d, bytes), world)
  {
    forall i | 0 <= i < |bytes| ensures DiskOk(Growing(d, bytes)[i], world) {
      assert d.part.bytes + bytes[..i+1] <= d.part.bytes + bytes;
    }
  }

  lemma {:induction false} BodyOk(d: Disk, size: int, chunks: seq<Content>, end: BodyEnd, asset: Asset, world: World)
    requires d.part.File? && d.final.NoFile? && Same(d, asset)
    requires d.part.bytes + Flatten(chunks) + (if end.WriteFails? then end.chunk else []) <= world(asset)
    ensures var t := Body(d, |d.part.bytes|, size, chunks, end);
      && AllOk(t.disks, world) && DiskOk(t.last, world)
      && t.last.final.NoFile? && Same(t.last, asset) && t.last.part.File?
      && (t.end.Complete? ==> |t.last.part.bytes| == size)
    decreases |chunks|
  {
    hide Growing, DiskOk;
    var tail := if end.WriteFails? then end.chunk else [];
    assert DiskOk(d, world) by { PrefixOk(d, asset, world); }
    if chunks != [] {
      var c := chunks[0];
      if |d.part.bytes| + |c| <= size {
        assert d.part.bytes + Flatten(chunks) + tail == d.part.bytes + c + Flatten(chunks[1..]) + tail;
        assert d.part.bytes + c <= d.part.bytes + Flatten(chunks) + tail;
        GrowingOk(d, c, asset, world);
        BodyOk(Append(d, c), size, chunks[1..], end, asset, world);
      }
    } else if end.WriteFails? && |d.part.bytes| + |end.chunk| <= size {
      var bytes := end.chunk[..if end.stored < |end.chunk| then end.stored else |end.chunk|];
      assert d.part.bytes + bytes <= d.part.bytes + Flatten(chunks) + tail;
      GrowingOk(d, bytes, asset, world);
    }
  }

  lemma PrefixOk(d: Disk, asset: Asset, world: World)
    requires Same(d, asset) && d.final.NoFile? && (d.part.File? ==> d.part.bytes <= world(asset))
    ensures DiskOk(d, world)
  {
  }

  lemma AttemptOk(d: Disk, start: nat, size: int, answer: Answer, asset: Asset, world: World)
    requires d.final.NoFile? && Same(d, asset) && DiskOk(d, world) && StartOf(d) == start
    requires Honest(answer, world(asset)) && !Unsolicited(start, answer)
    ensures var t := Attempt(d, start, size, answer);
      && AllOk(t.disks, world) && DiskOk(t.last, world)
      && t.last.final.NoFile? && Same(t.last, asset)
      && (t.end.Complete? ==> t.last.part.File? && |t.last.part.bytes| == size)
  {
    hide Body, BodyBytes;
    if answer.Response? {
      var content, bytes := world(asset), BodyBytes(answer);
      if start > 0 && answer.partial {
        if Continues(answer.range, start, size) {
          assert Announces(answer, start);
          BodyFollows(d, answer, asset, world);
          BodyOk(d, size, answer.chunks, answer.end, asset, world);
        }
      } else {
        assert Announces(answer, 0);
        var blank := d.(part := File([]));
        BodyFollows(blank, answer, asset, world);
        BodyOk(blank, size, answer.chunks, answer.end, asset, world);
      }
    }
  }

  lemma BodyFollows(d: Disk, answer: Answer, asset: Asset, world: World)
    requires answer.Response? && d.part.File? && d.part.bytes <= world(asset) && BodyBytes(answer) <= world(asset)[|d.part.bytes|..]
    ensures d.part.bytes + Flatten(answer.chunks) + (if answer.end.WriteFails? then answer.end.chunk else []) <= world(asset)
  {
    var tail := if answer.end.WriteFails? then answer.end.chunk else [];
    assert d.part.bytes + Flatten(answer.chunks) + tail == d.part.bytes + BodyBytes(answer);
    assert world(asset) == d.part.bytes + world(asset)[|d.part.bytes|..];
  }

  // --- The whole call keeps it.

  predicate Served(t: Trail<Result>, asset: Asset, world: World) {
    !t.end.Failed? ==>
      && Same(t.last, asset) && t.last.final.File?
      && |t.last.final.bytes| == asset.size && t.last.final.bytes <= world(asset)
  }

  lemma RoundOk(d: Disk, server: Server, n: nat, asset: Asset, world: World)
    requires d.final.NoFile? && Same(d, asset) && DiskOk(d, world) && ServerOk(server, world(asset))
    ensures var t := Round(d, asset.size, server, n);
      && AllOk(t.disks, world) && DiskOk(t.last, world) && Same(t.last, asset)
      && (if t.end.Complete? then t.last.final.File? else t.last.final.NoFile?)
  {
    hide Attempt, Honest;
    var ready := Prepared(d, asset.size);
    AttemptOk(ready, StartOf(ready), asset.size, server(n, StartOf(ready)), asset, world);
  }

  lemma {:induction false} TriesOk(d: Disk, server: Server, retries: nat, n: nat, asset: Asset, world: World)
    requires n <= retries && d.final.NoFile? && Same(d, asset) && DiskOk(d, world) && ServerOk(server, world(asset))
    ensures var t := Tries(d, asset.size, server, retries, n);
      AllOk(t.disks, world) && DiskOk(t.last, world) && Served(t, asset, world)
    ensures var t := Tries(d, asset.size, server, retries, n);
      match t.end case Reused => false case Fetched(k) => n < k <= retries + 1 case Failed(_, k) => n < k <= retries + 1
    decreases retries - n
  {
    hide Round;
    RoundOk(d, server, n, asset, world);
    var t := Round(d, asset.size, server, n);
    if !t.end.Complete? && Retryable(t.end.why) && n < retries {
      TriesOk(t.last, server, retries, n + 1, asset, world);
    }
  }

  /** Every state one call passes through is consistent, whatever the mix of interruptions, short
      bodies, ignored ranges and retries; the file it returns is the asset's content up to the
      declared size; and it makes at most one request more than `retries`. */
  lemma StageOk(d: Disk, asset: Asset, server: Server, free: nat, noted: bool, retries: nat, world: World)
    requires DiskOk(d, world) && ServerOk(server, world(asset))
    ensures var t := Stage(d, asset, server, free, noted, retries);
      AllOk(t.disks, world) && DiskOk(t.last, world) && Served(t, asset, world)
    ensures var t := Stage(d, asset, server, free, noted, retries);
      match t.end case Reused => true case Fetched(k) => k <= retries + 1 case Failed(_, k) => k <= retries + 1
  {
    hide Tries;
    var one := if Same(d, asset) then d else d.(part := NoFile);
    var four := one.(final := NoFile, sidecar := Names(asset));
    TriesOk(four, server, retries, 0, asset, world);
  }

  /** A final file beside its own sidecar always has the declared size: the size test never
      throws a finished download away. */
  lemma FinishedIsReused(d: Disk, asset: Asset, server: Server, free: nat, noted: bool, retries: nat, world: World)
    requires DiskOk(d, world) && Same(d, asset) && d.final.File? && 0 < asset.size <= MAX_SAFE
    ensures Stage(d, asset, server, free, noted, retries) == Trail([], d, Reused)
  {
  }

  // --- Whole histories.

  datatype Call =
    | StageCall(asset: Asset, server: Server, free: nat, noted: bool, retries: nat, killed: nat)
    | DiscardCall(killed: nat)

  /** A call killed after `killed` of its writes leaves the disk of that moment; one that is not
      killed leaves its last. */
  function Leaves(d: Disk, call: Call): Disk {
    match call
    case StageCall(asset, server, free, noted, retries, killed) =>
      var t := Stage(d, asset, server, free, noted, retries);
      if killed == 0 then d else if killed <= |t.disks| then t.disks[killed-1] else t.last
    case DiscardCall(killed) =>
      var t := Discard(d);
      if killed == 0 then d else if killed <= |t.disks| then t.disks[killed-1] else t.last
  }

  function DiskAfter(calls: seq<Call>): Disk {
    if calls == [] then EMPTY else Leaves(DiskAfter(calls[..|calls|-1]), calls[|calls|-1])
  }

  ghost predicate CallsOk(calls: seq<Call>, world: World) {
    forall i :: 0 <= i < |calls| && calls[i].StageCall? ==> ServerOk(calls[i].server, world(calls[i].asset))
  }

  /** After any history of downloads and discards, of any assets under the one name, each killed
      anywhere or not at all, the disk is consistent. */
  lemma {:induction false} HistoryKeepsDisk(calls: seq<Call>, world: World)
    requires CallsOk(calls, world)
    ensures DiskOk(DiskAfter(calls), world)
  {
    if calls != [] {
      hide Stage, DiskOk;
      assert DiskOk(EMPTY, world) by { EmptyOk(world); }
      var before, call := calls[..|calls|-1], calls[|calls|-1];
      HistoryKeepsDisk(before, world);
      var d := DiskAfter(before);
      match call
      case StageCall(asset, server, free, noted, retries, _) => StageOk(d, asset, server, free, noted, retries, world);
      case DiscardCall(_) => DiscardOk(d, world);
    }
  }

  lemma EmptyOk(world: World)
    ensures DiskOk(EMPTY, world)
  {
  }

  lemma DiscardOk(d: Disk, world: World)
    requires DiskOk(d, world)
    ensures AllOk(Discard(d).disks, world) && Discard(d).last == EMPTY
  {
  }

  /** So whatever happened before, a call that reports success has put, or found, exactly the
      asset's content in the final file. */
  lemma SuccessIsTheContent(calls: seq<Call>, asset: Asset, server: Server, free: nat, noted: bool, retries: nat, world: World)
    requires CallsOk(calls, world) && ServerOk(server, world(asset)) && |world(asset)| == asset.size
    requires !Stage(DiskAfter(calls), asset, server, free, noted, retries).end.Failed?
    ensures Stage(DiskAfter(calls), asset, server, free, noted, retries).last.final == File(world(asset))
  {
    hide Stage, DiskAfter, ServerOk;
    HistoryKeepsDisk(calls, world);
    StageOk(DiskAfter(calls), asset, server, free, noted, retries, world);
  }

  // --- A partial answer nobody asked for.

  /** Whatever the content, and whatever prefix of it is already there, an honest body under this
      head leaves a prefix of it. */
  ghost predicate KeepsPrefix(start: nat, size: int, partial: bool, range: Range) {
    forall content: Content, chunks, end ::
      start <= |content| && Honest(Response(partial, range, chunks, end), content) ==>
        IsPrefix(Attempt(Holding(content[..start]), start, size, Response(partial, range, chunks, end)).last.part, content)
  }

  predicate IsPrefix(part: File, content: Content) {
    part.File? ==> part.bytes <= content
  }

  const SOME_ASSET: Asset := Asset(0, 1, "")

  function Holding(bytes: Content): Disk {
    Disk(if bytes == [] then NoFile else File(bytes), Names(SOME_ASSET), NoFile)
  }

  lemma CorruptsWhenUnsolicited(size: int, range: Range)
    requires size > 0 && !(range.Range? && range.first == 0)
    ensures !KeepsPrefix(0, size, true, range)
  {
    var first := if range.Range? then range.first else 1;
    var content: Content := seq(first, _ => 0) + [1];
    var chunks: seq<Content>, end := [[1]], Finished;
    OneByteIsHonest(range, content);
    OneByteIsWritten(size);
    assert content[..0] == [];
    assert content[0] == 0 && !(File([1]).bytes <= content);
    assert !IsPrefix(Attempt(Holding(content[..0]), 0, size, Response(true, range, chunks, end)).last.part, content);
  }

  lemma OneByteIsHonest(range: Range, content: Content)
    requires range.Range? ==> range.first < |content| && content[range.first] == 1
    ensures Honest(Response(true, range, [[1]], Finished), content)
  {
    var chunks: seq<Content> := [[1]];
    assert chunks[1..] == [] && Flatten(chunks) == [1];
  }

  lemma OneByteIsWritten(size: int)
    requires size > 0
    ensures Body(Disk(File([]), Names(SOME_ASSET), NoFile), 0, size, [[1]], Finished).last.part == File([1])
  {
    var chunks: seq<Content> := [[1]];
    assert chunks[1..] == [];
  }

  /** The code checks the announced offset only when it asked for a range. So an attempt is safe for
      every honest server exactly when the answer is not a 206 for other than the first bytes to a
      request without a range. */
  lemma SafeExactlyWhenSolicited(start: nat, size: int, partial: bool, range: Range)
    requires size > 0
    ensures KeepsPrefix(start, size, partial, range) <==> !(start == 0 && partial && !(range.Range? && range.first == 0))
  {
    if start == 0 && partial && !(range.Range? && range.first == 0) {
      CorruptsWhenUnsolicited(size, range);
    } else {
      forall content: Content, chunks, end | start <= |content| && Honest(Response(partial, range, chunks, end), content)
        ensures IsPrefix(Attempt(Holding(content[..start]), start, size, Response(partial, range, chunks, end)).last.part, content)
      {
        AttemptOk(Holding(content[..start]), start, size, Response(partial, range, chunks, end), SOME_ASSET, _ => content);
      }
    }
  }

  /** Answers every request with the second byte of two; the first answer is cut short after it. */
  const SKEWED: Server := (n, start) => Response(true, Range(1, 2, true), [[2]], if n == 0 then Cut else Finished)

  lemma SkewedBody(d: Disk, written: nat, end: BodyEnd)
    requires written < 2 && d.part.File? && !end.WriteFails?
    ensures Body(d, written, 2, [[2]], end).last == Append(d, [2])
    ensures Body(d, written, 2, [[2]], end).end == Body(Append(d, [2]), written + 1, 2, [], end).end
  {
    var chunks: seq<Content> := [[2]];
    assert chunks[1..] == [];
  }

  /** One such answer, cut short and then resumed, ends in a finished file of the right size and the
      wrong bytes, though every body is the content at the offset it announces. */
  lemma UnsolicitedAnswerIsServed(n: nat, start: nat, url: string)
    ensures Honest(SKEWED(n, start), [1, 2])
    ensures var t := Stage(EMPTY, Asset(7, 2, url), SKEWED, MARGIN + 2, true, 3);
      t.end == Fetched(2) && t.last.final == File([2, 2])
  {
    hide Body;
    var content: Content := [1, 2];
    var chunks: seq<Content> := [[2]];
    assert chunks[1..] == [] && content[1..] == [2];
    assert Flatten(chunks) == [2];
    var d := Disk(NoFile, Names(Asset(7, 2, url)), NoFile);
    var one, two := d.(part := File([2])), d.(part := NoFile, final := File([2, 2]));
    SkewedBody(d.(part := File([])), 0, Cut);
    SkewedBody(one, 1, Finished);
    assert File([]).bytes + [2] == one.part.bytes;
    assert Append(d.(part := File([])), [2]) == one;
    var both: Content := [2, 2];
    assert one.part.bytes + [2] == both;
    assert Append(one, [2]) == d.(part := File(both));
    SkewedEnds(one, d.(part := File([2, 2])));
    assert Round(d, 2, SKEWED, 0).last == one && Round(d, 2, SKEWED, 0).end == Fails(Network);
    assert Round(one, 2, SKEWED, 1).last == two && Round(one, 2, SKEWED, 1).end == Complete;
    assert Tries(one, 2, SKEWED, 3, 1).end == Fetched(2);
  }

  lemma SkewedEnds(d: Disk, e: Disk)
    ensures Body(d, 1, 2, [], Cut).end == Fails(Network) && Body(e, 2, 2, [], Finished).end == Complete
  {
  }

  // --- A server that answers in the end is enough.

  predicate Serves(answer: Answer, start: nat, content: Content) {
    && answer.Response? && answer.end.Finished?
    && (|| (!answer.partial && Flatten(answer.chunks) == content)
        || (answer.partial && 0 < start <= |content| && Continues(answer.range, start, |content|)
            && Flatten(answer.chunks) == content[start..]))
  }

  /** An answer after which the call tries again, if it does not complete. */
  predicate Transient(answer: Answer) {
    match answer
    case Unreachable => true
    case Refusal(status) => status >= 500
    case Response(_, _, _, end) => !end.WriteFails?
  }

  lemma {:induction false} WholeBodyCompletes(d: Disk, written: nat, size: int, chunks: seq<Content>)
    requires written + |Flatten(chunks)| == size
    ensures Body(d, written, size, chunks, Finished).end == Complete
    decreases |chunks|
  {
    hide Growing;
    if chunks != [] {
      WholeBodyCompletes(Append(d, chunks[0]), written + |chunks[0]|, size, chunks[1..]);
    }
  }

  lemma {:induction false} BodyIsTransient(d: Disk, written: nat, size: int, chunks: seq<Content>, end: BodyEnd)
    requires !end.WriteFails?
    ensures var t := Body(d, written, size, chunks, end); t.end.Complete? || Retryable(t.end.why)
    decreases |chunks|
  {
    hide Growing;
    if chunks != [] && written + |chunks[0]| <= size {
      BodyIsTransient(Append(d, chunks[0]), written + |chunks[0]|, size, chunks[1..], end);
    }
  }

  lemma RoundCompletes(d: Disk, size: int, server: Server, n: nat, content: Content)
    requires |content| == size > 0 && var start := StartOf(Prepared(d, size)); Serves(server(n, start), start, content)
    ensures Round(d, size, server, n).end.Complete?
  {
    hide Body;
    var ready := Prepared(d, size);
    var answer := server(n, StartOf(ready));
    if answer.partial {
      WholeBodyCompletes(ready, StartOf(ready), size, answer.chunks);
    } else {
      WholeBodyCompletes(ready.(part := File([])), 0, size, answer.chunks);
    }
  }

  lemma RoundIsTransient(d: Disk, size: int, server: Server, n: nat)
    requires Transient(server(n, StartOf(Prepared(d, size))))
    ensures var t := Round(d, size, server, n); t.end.Complete? || Retryable(t.end.why)
  {
    hide Body;
    var ready := Prepared(d, size);
    var answer := server(n, StartOf(ready));
    if answer.Response? {
      BodyIsTransient(ready, StartOf(ready), size, answer.chunks, answer.end);
      BodyIsTransient(ready.(part := File([])), 0, size, answer.chunks, answer.end);
    }
  }

  lemma {:induction false} TriesComplete(d: Disk, size: int, server: Server, retries: nat, n: nat, m: nat, content: Content)
    requires n <= m <= retries && |content| == size > 0
    requires forall k: nat, start: nat :: k < m ==> Transient(server(k, start))
    requires forall start: nat :: start < size ==> Serves(server(m, start), start, content)
    ensures Tries(d, size, server, retries, n).end.Fetched?
    decreases retries - n
  {
    hide Round;
    var start := StartOf(Prepared(d, size));
    var t := Round(d, size, server, n);
    if n == m {
      assert Serves(server(n, start), start, content);
      RoundCompletes(d, size, server, n, content);
    } else {
      assert Transient(server(n, start));
      RoundIsTransient(d, size, server, n);
      if !t.end.Complete? {
        TriesComplete(t.last, size, server, retries, n + 1, m, content);
      }
    }
  }

  /** With room on the disk, a call succeeds as soon as one of its `retries` + 1 requests is answered
      in full, whatever passing trouble came before. */
  lemma StageCompletes(d: Disk, asset: Asset, server: Server, free: nat, retries: nat, m: nat, content: Content)
    requires 0 < asset.size <= MAX_SAFE && |content| == asset.size && free >= asset.size + MARGIN && m <= retries
    requires forall k: nat, start: nat :: k < m ==> Transient(server(k, start))
    requires forall start: nat :: start < asset.size ==> Serves(server(m, start), start, content)
    ensures !Stage(d, asset, server, free, true, retries).end.Failed?
  {
    hide Tries, Transient, Serves;
    var one := if Same(d, asset) then d else d.(part := NoFile);
    TriesComplete(one.(final := NoFile, sidecar := Names(asset)), asset.size, server, retries, 0, m, content);
  }

  // --- Every call resumes where the bytes on the disk stop.

  /** The bytes a call starts from: those of the partial file, if the sidecar names this asset. */
  function Kept(d: Disk, asset: Asset): Content {
    if d.sidecar == Names(asset) && d.part.File? then d.part.bytes else []
  }

  /** Asked for the bytes from `start` on, the answer leaves the first `stop` bytes of the content on
      the disk. Passing trouble changes nothing; a range that does not continue them, or a body that
      ends too soon, costs them all; otherwise the rest came (from the beginning when the range was
      ignored), up to an interruption or to the end. */
  predicate Brings(answer: Answer, start: nat, stop: nat, content: Content) {
    match answer
    case Unreachable => stop == start
    case Refusal(status) => status >= 500 && stop == start
    case Response(partial, range, chunks, end) =>
      var begun := if start > 0 && partial then start else 0;
      if begun > 0 && !(range.Range? && range.first == start && (range.known ==> range.total == |content|)) then stop == 0
      else if end.Finished? && begun + |Flatten(chunks)| < |content| then stop == 0
      else
        && begun <= stop <= |content| && Flatten(chunks) == content[begun..stop]
        && end == (if stop == |content| then Finished else Cut)
  }

  /** Request by request the server brings the content to `marks[0]`, `marks[1]` and so on, up to its
      end; what it would answer to any other request is left open. */
  predicate Delivers(kept: Content, server: Server, marks: seq<nat>, content: Content) {
    && |marks| >= 2 && marks[0] <= |content| && kept == content[..marks[0]] && marks[|marks|-1] == |content|
    && (forall i :: 0 <= i < |marks| - 1 ==> marks[i] < |content|)
    && (forall i :: 1 <= i < |marks| ==> Brings(server(i - 1, marks[i-1]), marks[i-1], marks[i], content))
  }

  /** The disk holds the first `n` bytes of the content, and no final file. */
  predicate Holds(d: Disk, n: nat, content: Content) {
    && n <= |content| && d.final.NoFile?
    && (d.part.File? ==> d.part.bytes == content[..n]) && (d.part.NoFile? ==> n == 0)
  }

  lemma {:induction false} BodyBrings(d: Disk, size: int, chunks: seq<Content>, end: BodyEnd)
    requires d.part.File? && |d.part.bytes| + |Flatten(chunks)| <= size && !end.WriteFails?
    ensures var t := Body(d, |d.part.bytes|, size, chunks, end);
      && t.last == d.(part := File(d.part.bytes + Flatten(chunks)))
      && t.end == (if end.Cut? then Fails(Network)
                   else if |d.part.bytes| + |Flatten(chunks)| == size then Complete else Fails(WrongBytes))
    decreases |chunks|
  {
    hide Growing;
    if chunks == [] {
      assert d.part.bytes + [] == d.part.bytes;
    } else {
      BodyBrings(Append(d, chunks[0]), size, chunks[1..], end);
      Associate(d.part.bytes, chunks[0], Flatten(chunks[1..]));
    }
  }

  lemma RoundBrings(d: Disk, server: Server, n: nat, start: nat, stop: nat, content: Content)
    requires Holds(d, start, content) && start < |content| && Brings(server(n, start), start, stop, content)
    ensures var t := Round(d, |content|, server, n);
      if stop == |content| then t.end == Complete && t.last == d.(part := NoFile, final := File(content))
      else t.end.Fails? && Retryable(t.end.why) && Holds(t.last, stop, content) && t.last.sidecar == d.sidecar
  {
    hide Body;
    var answer := server(n, start);
    assert Prepared(d, |content|) == d && StartOf(d) == start;
    if answer.Response? {
      if start > 0 && answer.partial {
        if Continues(answer.range, start, |content|) {
          BodyBrings(d, |content|, answer.chunks, answer.end);
          assert start <= stop ==> content[..start] + content[start..stop] == content[..stop];
        }
      } else {
        BodyBrings(d.(part := File([])), |content|, answer.chunks, answer.end);
        assert [] + content[0..stop] == content[..stop];
      }
      assert content[..|content|] == content;
    }
  }

  lemma {:induction false} TriesDeliver(d: Disk, server: Server, retries: nat, n: nat, kept: Content, marks: seq<nat>, content: Content)
    requires Delivers(kept, server, marks, content) && n + 1 < |marks| <= retries + 2
    requires Holds(d, marks[n], content)
    ensures var t := Tries(d, |content|, server, retries, n);
      t.end == Fetched(|marks| - 1) && t.last == d.(part := NoFile, final := File(content))
    decreases |marks| - n
  {
    hide Round, Brings;
    assert Brings(server(n + 1 - 1, marks[n+1-1]), marks[n+1-1], marks[n+1], content);
    RoundBrings(d, server, n, marks[n], marks[n+1], content);
    if n + 2 < |marks| {
      TriesDeliver(Round(d, |content|, server, n).last, server, retries, n + 1, kept, marks, content);
    }
  }

  /** Nothing but the requests at the marks is made, each starting where the one before it stopped and
      the first where an earlier call did; the call ends with the last of them and the whole content. */
  lemma StageResumes(d: Disk, asset: Asset, server: Server, free: nat, retries: nat, marks: seq<nat>, content: Content)
    requires 0 < asset.size <= MAX_SAFE && |content| == asset.size && !(Same(d, asset) && SizeOf(d.final) == asset.size)
    requires Delivers(Kept(d, asset), server, marks, content) && |marks| <= retries + 2
    requires free >= asset.size - |Kept(d, asset)| + MARGIN
    ensures var t := Stage(d, asset, server, free, true, retries);
      t.end == Fetched(|marks| - 1) && t.last == Disk(NoFile, Names(asset), File(content))
  {
    hide Tries, Brings;
    var four := Disk(if Same(d, asset) then d.part else NoFile, Names(asset), NoFile);
    TriesDeliver(four, server, retries, 0, Kept(d, asset), marks, content);
  }

  lemma ResumesOrFails(d: Disk, asset: Asset, server: Server, free: nat, noted: bool, retries: nat)
    ensures var t := Stage(d, asset, server, free, noted, retries);
      && (t.end == Failed(NoSpace, 0) <==>
          && 0 < asset.size <= MAX_SAFE && !(Same(d, asset) && SizeOf(d.final) == asset.size)
          && free < asset.size - |Kept(d, asset)| + 67108864)
      && forall marks, content ::
        && Delivers(Kept(d, asset), server, marks, content)
        && |content| == asset.size <= MAX_SAFE && |marks| <= retries + 2
        && !(Same(d, asset) && SizeOf(d.final) == asset.size)
        && noted && free >= asset.size - |Kept(d, asset)| + MARGIN
        ==> t.end == Fetched(|marks| - 1) && t.last == Disk(NoFile, Names(asset), File(content))
  {
    hide Stage, Delivers;
    StageFails(d, asset, server, free, noted, retries);
    forall marks, content |
      && Delivers(Kept(d, asset), server, marks, content)
      && |content| == asset.size <= MAX_SAFE && |marks| <= retries + 2
      && !(Same(d, asset) && SizeOf(d.final) == asset.size)
      && noted && free >= asset.size - |Kept(d, asset)| + MARGIN
      ensures |marks| >= 2
      ensures var t := Stage(d, asset, server, free, noted, retries);
        t.end == Fetched(|marks| - 1) && t.last == Disk(NoFile, Names(asset), File(content))
    {
      DeliversSomething(Kept(d, asset), server, marks, content);
      StageResumes(d, asset, server, free, retries, marks, content);
    }
  }

  lemma DeliversSomething(kept: Content, server: Server, marks: seq<nat>, content: Content)
    requires Delivers(kept, server, marks, content)
    ensures |content| > 0 && |marks| >= 2
  {
    hide Brings;
  }

  // --- Where a call can be killed.

  lemma {:induction false} BodyPasses(d: Disk, size: int, chunks: seq<Content>, end: BodyEnd, n: nat) returns (i: nat)
    requires d.part.File? && |d.part.bytes| + |Flatten(chunks)| <= size && 0 < n <= |Flatten(chunks)|
    ensures var t := Body(d, |d.part.bytes|, size, chunks, end);
      i < |t.disks| && t.disks[i] == d.(part := File(d.part.bytes + Flatten(chunks)[..n]))
    decreases |chunks|
  {
    hide Growing;
    var c, more := chunks[0], chunks[1..];
    GrowingPasses(d, c);
    if n <= |c| {
      i := n - 1;
      assert Flatten(chunks)[..n] == c[..n];
    } else {
      var k := BodyPasses(Append(d, c), size, more, end, n - |c|);
      i := |c| + k;
      assert Flatten(chunks)[..n] == c + Flatten(more)[..n-|c|];
      Associate(d.part.bytes, c, Flatten(more)[..n-|c|]);
    }
  }

  lemma GrowingPasses(d: Disk, bytes: Content)
    requires d.part.File?
    ensures |Growing(d, bytes)| == |bytes|
    ensures forall i :: 0 <= i < |bytes| ==> Growing(d, bytes)[i] == d.(part := File(d.part.bytes + bytes[..i+1]))
  {
  }

  lemma RoundPasses(d: Disk, server: Server, n: nat, start: nat, stop: nat, content: Content, m: nat) returns (i: nat)
    requires Holds(d, start, content) && start < |content| && Brings(server(n, start), start, stop, content)
    requires start < m <= stop
    ensures var t := Round(d, |content|, server, n);
      i < |t.disks| && t.disks[i] == d.(part := File(content[..m]))
  {
    hide Body;
    var answer := server(n, start);
    assert Prepared(d, |content|) == d && StartOf(d) == start;
    var t := Attempt(d, start, |content|, answer);
    if start > 0 && answer.partial {
      var k := BodyPasses(d, |content|, answer.chunks, answer.end, m - start);
      assert content[..start] + content[start..stop][..m-start] == content[..m];
      i := k + 1;
      assert ([d] + t.disks)[i] == t.disks[k];
    } else {
      var k := BodyPasses(d.(part := File([])), |content|, answer.chunks, answer.end, m);
      assert [] + content[0..stop][..m] == content[..m];
      i := k + 2;
      assert ([d] + t.disks)[i] == t.disks[k + 1];
    }
  }

  /** A call may be killed after every single byte it stores: each longer beginning of the content is a
      state it passes, beside the sidecar that names the asset and no final file. */
  lemma EveryByteIsStored(d: Disk, asset: Asset, server: Server, free: nat, retries: nat, stop: nat, content: Content, m: nat)
    returns (i: nat)
    requires 0 < asset.size <= MAX_SAFE && |content| == asset.size && !(Same(d, asset) && SizeOf(d.final) == asset.size)
    requires free >= asset.size - |Kept(d, asset)| + MARGIN
    requires |Kept(d, asset)| < m <= stop <= |content| && Kept(d, asset) <= content
    requires Brings(server(0, |Kept(d, asset)|), |Kept(d, asset)|, stop, content)
    ensures var t := Stage(d, asset, server, free, true, retries);
      i < |t.disks| && t.disks[i] == Disk(File(content[..m]), Names(asset), NoFile)
  {
    hide Round, Brings;
    var four := Disk(if Same(d, asset) then d.part else NoFile, Names(asset), NoFile);
    var start := |Kept(d, asset)|;
    assert Kept(d, asset) == content[..start];
    var k := RoundPasses(four, server, 0, start, stop, content, m);
    TriesPass(four, asset.size, server, retries, k);
    i := k + 4;
  }

  lemma TriesPass(d: Disk, size: int, server: Server, retries: nat, k: nat)
    requires k < |Round(d, size, server, 0).disks|
    ensures var t := Tries(d, size, server, retries, 0);
      k < |t.disks| && t.disks[k] == Round(d, size, server, 0).disks[k]
  {
    hide Round;
  }

  // --- How a call fails.

  lemma {:induction false} BodyFails(d: Disk, written: nat, size: int, chunks: seq<Content>, end: BodyEnd)
    ensures var e := Body(d, written, size, chunks, end).end;
      e.Fails? ==> e.why in {WrongBytes, Network, WriteError}
    decreases |chunks|
  {
    hide Growing;
    if chunks != [] {
      BodyFails(Append(d, chunks[0]), written + |chunks[0]|, size, chunks[1..], end);
    }
  }

  /** A failed round failed for a reason of its own, and bytes that cannot belong are gone. */
  lemma RoundFails(d: Disk, size: int, server: Server, n: nat)
    ensures var t := Round(d, size, server, n);
      t.end.Fails? ==> t.end.why != NoSpace && t.end.why != InvalidSize && (t.end.why == WrongBytes ==> t.last.part == NoFile)
  {
    hide Body;
    var ready := Prepared(d, size);
    var answer := server(n, StartOf(ready));
    if answer.Response? {
      BodyFails(ready, StartOf(ready), size, answer.chunks, answer.end);
      BodyFails(ready.(part := File([])), 0, size, answer.chunks, answer.end);
    }
  }

  /** What a failure tells: passing trouble only after the last retry, never for want of space. */
  predicate FailsLike(r: Result, part: File, retries: nat) {
    r.Failed? ==>
      match r.why
      case Network => r.attempts == retries + 1
      case WrongBytes => r.attempts == retries + 1 && part == NoFile
      case HttpStatus(status) => status < 500 || r.attempts == retries + 1
      case WriteError => true
      case _ => r.attempts == 0
  }

  lemma {:induction false} TriesFail(d: Disk, size: int, server: Server, retries: nat, n: nat)
    requires n <= retries
    ensures var t := Tries(d, size, server, retries, n);
      && FailsLike(t.end, t.last.part, retries) && !t.end.Reused?
      && (t.end.Failed? ==> t.end.why != NoSpace && t.end.why != InvalidSize)
    decreases retries - n
  {
    hide Round;
    RoundFails(d, size, server, n);
    var t := Round(d, size, server, n);
    if !t.end.Complete? && Retryable(t.end.why) && n < retries {
      TriesFail(t.last, size, server, retries, n + 1);
    }
  }

  /** Too little room is reported exactly when the bytes still missing and the margin do not fit, an
      invalid size exactly when it is one, and a reuse exactly beside a finished file. */
  lemma StageFails(d: Disk, asset: Asset, server: Server, free: nat, noted: bool, retries: nat)
    ensures var r := Stage(d, asset, server, free, noted, retries).end;
      var valid, done := 0 < asset.size <= MAX_SAFE, Same(d, asset) && SizeOf(d.final) == asset.size;
      && (r == Failed(InvalidSize, 0) <==> !valid)
      && (r == Reused <==> valid && done)
      && (r == Failed(NoSpace, 0) <==> valid && !done && free < asset.size - |Kept(d, asset)| + 67108864)
    ensures var t := Stage(d, asset, server, free, noted, retries);
      FailsLike(t.end, t.last.part, retries)
  {
    hide Tries;
    var four := Disk(if Same(d, asset) then d.part else NoFile, Names(asset), NoFile);
    TriesFail(four, asset.size, server, retries, 0);
  }

  /** A refusal that is not passing trouble ends the call at once, and the bytes stay for the next one. */
  lemma RefusalStops(d: Disk, asset: Asset, server: Server, free: nat, retries: nat, status: nat)
    requires 0 < asset.size <= MAX_SAFE && !(Same(d, asset) && SizeOf(d.final) == asset.size)
    requires |Kept(d, asset)| < asset.size && free >= asset.size - |Kept(d, asset)| + MARGIN
    requires status < 500 && server(0, |Kept(d, asset)|) == Refusal(status)
    ensures var t := Stage(d, asset, server, free, true, retries);
      && t.end == Failed(HttpStatus(status), 1) && t.last.final == NoFile
      && Kept(t.last, asset) == Kept(d, asset)
  {
  }

  lemma {:induction false} BodyStops(d: Disk, size: int, chunks: seq<Content>, chunk: Content, stored: nat)
    requires d.part.File? && |d.part.bytes| + |Flatten(chunks)| + |chunk| <= size && stored <= |chunk|
    ensures var t := Body(d, |d.part.bytes|, size, chunks, WriteFails(chunk, stored));
      t.end == Fails(WriteError) && t.last == d.(part := File(d.part.bytes + Flatten(chunks) + chunk[..stored]))
    decreases |chunks|
  {
    hide Growing;
    if chunks == [] {
      assert d.part.bytes + [] == d.part.bytes;
    } else {
      BodyStops(Append(d, chunks[0]), size, chunks[1..], chunk, stored);
      Associate(d.part.bytes, chunks[0], Flatten(chunks[1..]));
    }
  }

  /** A write the disk refuses ends the call at once too, and every byte it stored stays. */
  lemma WriteFailureStops(d: Disk, asset: Asset, server: Server, free: nat, retries: nat,
                          range: Range, chunks: seq<Content>, chunk: Content, stored: nat)
    requires 0 < asset.size <= MAX_SAFE && !(Same(d, asset) && SizeOf(d.final) == asset.size)
    requires 0 < |Kept(d, asset)| < asset.size && free >= asset.size - |Kept(d, asset)| + MARGIN
    requires server(0, |Kept(d, asset)|) == Response(true, range, chunks, WriteFails(chunk, stored))
    requires Continues(range, |Kept(d, asset)|, asset.size)
    requires |Kept(d, asset)| + |Flatten(chunks)| + |chunk| <= asset.size && stored <= |chunk|
    ensures var t := Stage(d, asset, server, free, true, retries);
      && t.end == Failed(WriteError, 1) && t.last.final == NoFile
      && Kept(t.last, asset) == Kept(d, asset) + Flatten(chunks) + chunk[..stored]
  {
    hide Body;
    BodyStops(Disk(d.part, Names(asset), NoFile), asset.size, chunks, chunk, stored);
  }

  // --- The downloader.

  class Staging {
    var part: File
    var sidecar: Sidecar
    var final: File

    /** Every state of the three files so far, oldest first. */
    ghost var disks: seq<Disk>

    constructor (d: Disk)
      ensures Now() == d && disks == []
    {
      part, sidecar, final, disks := d.part, d.sidecar, d.final, [];
    }

    ghost function Now(): Disk
      reads this
    {
      Disk(part, sidecar, final)
    }

    /** The call went the way of the trail. */
    ghost predicate Went<T>(before: seq<Disk>, t: Trail<T>)
      reads this
    {
      disks == before + t.disks && Now() == t.last
    }

    method RemovePart()
      modifies `part, `disks
      ensures part == NoFile && disks == old(disks) + [Now()]
    {
      part := NoFile;
      disks := disks + [Now()];
    }

    method RemoveFinal()
      modifies `final, `disks
      ensures final == NoFile && disks == old(disks) + [Now()]
    {
      final := NoFile;
      disks := disks + [Now()];
    }

    /** Appends to the open partial file. */
    method WriteChunk(bytes: Content)
      requires part.File?
      modifies `part, `disks
      ensures part.File? && Now() == Append(old(Now()), bytes) && disks == old(disks) + Growing(old(Now()), bytes)
    {
      disks := disks + Growing(Now(), bytes);
      part := File(part.bytes + bytes);
    }

    method TakeBody(begun: nat, size: int, chunks: seq<Content>, end: BodyEnd) returns (e: Ending)
      requires part.File?
      modifies `part, `disks
      ensures Went(old(disks), Body(old(Now()), begun, size, chunks, end))
      ensures e == Body(old(Now()), begun, size, chunks, end).end
    {
      hide Growing, Append, Body;
      var written: nat := begun;
      var i := 0;
      assert chunks[0..] == chunks;
      ghost var done: seq<Disk> := [];
      BeforeNothing(disks, Body(Now(), begun, size, chunks, end));
      while i < |chunks|
        invariant 0 <= i <= |chunks| && part.File? && disks == old(disks) + done
        invariant Body(old(Now()), begun, size, chunks, end) == Before(done, Body(Now(), written, size, chunks[i..], end))
      {
        ghost var d := Now();
        BodyTakes(d, written, size, chunks, i, end);
        if written + |chunks[i]| > size {
          Nothing(done);
          return Fails(WrongBytes);
        }
        written := written + |chunks[i]|;
        WriteChunk(chunks[i]);
        BeforeBefore(done, Growing(d, chunks[i]), Body(Now(), written, size, chunks[i+1..], end));
        Associate(old(disks), done, Growing(d, chunks[i]));
        done := done + Growing(d, chunks[i]);
        i := i + 1;
      }
      assert chunks[i..] == [];
      ghost var tail := Body(Now(), written, size, [], end).disks;
      e := EndBody(written, size, end);
      Associate(old(disks), done, tail);
    }

    method EndBody(written: nat, size: int, end: BodyEnd) returns (e: Ending)
      requires part.File?
      modifies `part, `disks
      ensures Went(old(disks), Body(old(Now()), written, size, [], end))
      ensures e == Body(old(Now()), written, size, [], end).end
    {
      hide Growing, Append;
      assert disks + [] == disks;
      match end
      case Finished => e := if written != size then Fails(WrongBytes) else Complete;
      case Cut => e := Fails(Network);
      case WriteFails(chunk, stored) =>
        if written + |chunk| > size {
          return Fails(WrongBytes);
        }
        WriteChunk(chunk[..if stored < |chunk| then stored else |chunk|]);
        e := Fails(WriteError);
    }

    method TakeAnswer(start: nat, size: int, answer: Answer) returns (e: Ending)
      requires start == StartOf(Now())
      modifies `part, `disks
      ensures Went(old(disks), Attempt(old(Now()), start, size, answer))
      ensures e == Attempt(old(Now()), start, size, answer).end
    {
      hide Body;
      assert disks + [] == disks;
      match answer
      case Unreachable => e := Fails(Network);
      case Refusal(status) => e := Fails(HttpStatus(status));
      case Response(partial, range, chunks, end) =>
        if start > 0 && partial {
          if !Continues(range, start, size) {
            RemovePart();
            return Fails(WrongBytes);
          }
          e := TakeBody(start, size, chunks, end);
        } else {
          part := File([]);
          disks := disks + [Now()];
          e := TakeBody(0, size, chunks, end);
          assert disks == old(disks) + ([old(Now()).(part := File([]))] + Body(old(Now()).(part := File([])), 0, size, chunks, end).disks);
        }
    }

    method TryOnce(size: int, server: Server, n: nat) returns (e: Ending)
      modifies `part, `final, `disks
      ensures Went(old(disks), Round(old(Now()), size, server, n))
      ensures e == Round(old(Now()), size, server, n).end
    {
      hide Attempt;
      if !(0 <= SizeOf(part) < size) {
        part := NoFile;
      }
      ghost var ready := Now();
      disks := disks + [ready];
      var start := if part.File? then |part.bytes| else 0;
      ghost var t := Attempt(ready, start, size, server(n, start));
      e := TakeAnswer(start, size, server(n, start));
      if e.Complete? {
        part, final := NoFile, part;
      } else if e.why == WrongBytes {
        part := NoFile;
      }
      disks := disks + [Now()];
      assert disks == old(disks) + ([ready] + t.disks + [Now()]);
    }

    method TryAll(size: int, server: Server, retries: nat) returns (r: Result)
      modifies `part, `final, `disks
      ensures Went(old(disks), Tries(old(Now()), size, server, retries, 0))
      ensures r == Tries(old(Now()), size, server, retries, 0).end
    {
      hide Round;
      var n := 0;
      assert disks + [] == disks;
      while true
        invariant n <= retries && |old(disks)| <= |disks|
        invariant disks[..|old(disks)|] == old(disks)
        invariant Tries(old(Now()), size, server, retries, 0)
               == Before(disks[|old(disks)|..], Tries(Now(), size, server, retries, n))
        decreases retries - n
      {
        ghost var done := disks[|old(disks)|..];
        ghost var t := Round(Now(), size, server, n);
        var e := TryOnce(size, server, n);
        assert disks == old(disks) + (done + t.disks);
        assert disks[|old(disks)|..] == done + t.disks;
        if e.Complete? {
          return Fetched(n + 1);
        }
        if !Retryable(e.why) || n >= retries {
          return Failed(e.why, n + 1);
        }
        n := n + 1;
        BeforeBefore(done, t.disks, Tries(Now(), size, server, retries, n));
      }
    }

    /** Stages one asset; the result and every state on the way are those of `Stage`. */
    method StageAsset(asset: Asset, server: Server, free: nat, noted: bool, retries: nat) returns (r: Result)
      modifies this
      ensures Went(old(disks), Stage(old(Now()), asset, server, free, noted, retries))
      ensures r == Stage(old(Now()), asset, server, free, noted, retries).end
    {
      hide Tries;
      assert disks + [] == disks;
      if !(0 < asset.size <= MAX_SAFE) {
        return Failed(InvalidSize, 0);
      }
      var same := sidecar == Names(asset);
      if same && SizeOf(final) == asset.size {
        return Reused;
      }
      if !same {
        part := NoFile;
      }
      ghost var one := Now();
      disks := disks + [one];
      RemoveFinal();
      ghost var two := Now();
      var have := if part.File? then |part.bytes| else 0;
      if free < asset.size - have + MARGIN {
        assert disks == old(disks) + [one, two];
        return Failed(NoSpace, 0);
      }
      sidecar := Unreadable;
      ghost var three := Now();
      disks := disks + [three];
      if !noted {
        assert disks == old(disks) + [one, two, three];
        return Failed(WriteError, 0);
      }
      sidecar := Names(asset);
      ghost var four := Now();
      disks := disks + [four];
      r := TryAll(asset.size, server, retries);
      assert disks == old(disks) + ([one, two, three, four] + Tries(four, asset.size, server, retries, 0).disks);
    }

    /** One call: what the disk holds of this asset counts towards the room needed and is never asked
        for again. */
    method DownloadAsset(asset: Asset, server: Server, free: nat, noted: bool, retries: nat) returns (r: Result)
      modifies this
      ensures Went(old(disks), Stage(old(Now()), asset, server, free, noted, retries))
      ensures r == Stage(old(Now()), asset, server, free, noted, retries).end
      ensures r == Failed(NoSpace, 0) <==>
        && 0 < asset.size <= MAX_SAFE && !(old(sidecar) == Names(asset) && SizeOf(old(final)) == asset.size)
        && free < asset.size - |Kept(old(Now()), asset)| + 67108864
      ensures forall marks, content ::
        && Delivers(Kept(old(Now()), asset), server, marks, content)
        && |content| == asset.size <= MAX_SAFE && |marks| <= retries + 2
        && !(old(sidecar) == Names(asset) && SizeOf(old(final)) == asset.size)
        && noted && free >= asset.size - |Kept(old(Now()), asset)| + MARGIN
        ==> r == Fetched(|marks| - 1) && part == NoFile && sidecar == Names(asset) && final == File(content)
    {
      hide Stage, Delivers, Kept;
      ResumesOrFails(Now(), asset, server, free, noted, retries);
      r := StageAsset(asset, server, free, noted, retries);
    }

    method DiscardAsset()
      modifies this
      ensures Went(old(disks), Discard(old(Now())))
    {
      RemoveFinal();
      RemovePart();
      sidecar := NoSidecar;
      disks := disks + [Now()];
    }
  }

  lemma BodyTakes(d: Disk, written: nat, size: int, chunks: seq<Content>, i: nat, end: BodyEnd)
    requires i < |chunks|
    ensures Body(d, written, size, chunks[i..], end) ==
      if written + |chunks[i]| > size then Trail([], d, Fails(WrongBytes))
      else Before(Growing(d, chunks[i]), Body(Append(d, chunks[i]), written + |chunks[i]|, size, chunks[i+1..], end))
  {
    hide Growing, Append;
    assert chunks[i..][1..] == chunks[i+1..];
  }

  lemma Nothing(a: seq<Disk>)
    ensures a + [] == a && [] + a == a
  {
  }

  lemma BeforeNothing<T>(a: seq<Disk>, t: Trail<T>)
    ensures a + [] == a && Before([], t) == t
  {
    assert [] + t.disks == t.disks;
  }

  lemma BeforeBefore<T>(a: seq<Disk>, b: seq<Disk>, t: Trail<T>)
    ensures Before(a, Before(b, t)) == Before(a + b, t)
  {
    assert a + (b + t.disks) == a + b + t.disks;
  }
}
