// One download: the retry loop over mirrors, with restarts (status 200) and
// resumed transfers (status 206), and the checks at its end.
module Download {
  import opened ByteStrings
  import opened Seqs
  import opened Wrappers

  // filesize <= 0 means that the size is not known.
  datatype Item<D> = Item(checksum: Option<D>, filesize: int)

  // A body arrives in blocks; the last read brings some bytes and either the
  // end of the body or a read error.
  datatype Response =
    | NoResponse
    | Response(status: int, contentLength: int, blocks: seq<Bytes>, last: Bytes, complete: bool)

  // The file with its offset, the 32-bit progress counter, what the hasher got
  // and the expected size.
  datatype Transfer = Transfer(file: Bytes, pos: nat, progress: nat, hashed: Bytes, filesize: int)

  function FirstTransfer<D>(item: Item<D>): Transfer {
    Transfer([], 0, 0, [], item.filesize)
  }

  function Overwrite(file: Bytes, pos: nat, data: Bytes): Bytes
    requires pos <= |file|
  {
    file[..pos] + data + (if pos + |data| <= |file| then file[pos + |data|..] else [])
  }

  function Receive(t: Transfer, data: Bytes): Transfer
    requires t.pos <= |t.file|
  {
    t.(file := Overwrite(t.file, t.pos, data), pos := t.pos + |data|,
    progress := (t.progress + |data|) % TWO_32, hashed := t.hashed + data)
  }

  function ReceiveAll(t: Transfer, blocks: seq<Bytes>): (r: Transfer)
    requires t.pos <= |t.file|
    ensures r.pos <= |r.file|
  {
    if blocks == [] then t else Receive(ReceiveAll(t, DropLast(blocks)), blocks[|blocks| - 1])
  }

  predicate Usable(resp: Response) {
    resp.Response? && (resp.status == 200 || resp.status == 206)
  }

  // The progress when the body starts: a 200 starts over.
  function HeaderProgress(t: Transfer, resp: Response): nat
    requires Usable(resp)
  {
    if resp.status == 200 then 0 else t.progress
  }

  // The announced length does not lead to the length of the item.
  predicate Unexpected<D>(item: Item<D>, t: Transfer, resp: Response)
    requires Usable(resp)
  {
    && item.filesize > 0 && resp.contentLength != item.filesize
    && (resp.status == 200 || resp.contentLength + t.progress != item.filesize)
  }

  // The header of a usable response: a 200 starts over, and an unexpected length
  // is trusted when there is a checksum.
  function Accept<D>(item: Item<D>, t: Transfer, resp: Response): Transfer
    requires Usable(resp)
  {
    var t1 :=
      if resp.status == 200 then
        t.(pos := 0, progress := 0, hashed := [],
        filesize := if t.filesize <= 0 then resp.contentLength else t.filesize)
      else t;
    if Unexpected(item, t, resp) && item.checksum.Some? then
      t1.(filesize := resp.contentLength + HeaderProgress(t, resp))
    else t1
  }

  function Attempt<D>(item: Item<D>, t: Transfer, resp: Response): (r: Transfer)
    requires t.pos <= |t.file|
    ensures r.pos <= |r.file|
  {
    if !Usable(resp) then t
    else Receive(ReceiveAll(Accept(item, t, resp), resp.blocks), resp.last)
  }

  function AfterTries<D>(item: Item<D>, responses: seq<Response>): (t: Transfer)
    ensures t.pos <= |t.file|
  {
    if responses == [] then FirstTransfer(item)
    else Attempt(item, AfterTries(item, DropLast(responses)), responses[|responses| - 1])
  }

  predicate Passes<D(==)>(hash: Bytes -> D, item: Item<D>, t: Transfer) {
    && t.pos == t.progress
    && (t.filesize > 0 ==> t.pos == t.filesize)
    && (item.checksum.Some? ==> hash(t.hashed) == item.checksum.value)
  }

  datatype Exit = Succeeded | HandledError | LeftEarly

  function Answers(mirrors: nat -> Response, n: nat): (r: seq<Response>)
    ensures |r| == n
  {
    if n == 0 then [] else Answers(mirrors, n - 1) + [mirrors(n - 1)]
  }

  // mirrors answers the requests in turn.  The worker may stop at any check of
  // the queue's error or of the context, and any file operation may fail.
  method Run<D(==)>(hash: Bytes -> D, item: Item<D>, retries: nat, mirrors: nat -> Response)
    returns (exit: Exit, t: Transfer, ghost tries: seq<Response>)
    ensures |tries| <= retries && tries == Answers(mirrors, |tries|)
    ensures exit == Succeeded ==>
              && tries != [] && Usable(tries[|tries| - 1]) && tries[|tries| - 1].complete
              && t == AfterTries(item, tries)
    ensures exit == Succeeded ==> Passes(hash, item, t)
  {
    t, tries := FirstTransfer(item), [];
    var created: bool, success := *, false;
    if !created {
      return HandledError, t, tries;
    }
    for try := 0 to retries
      invariant !success
      invariant |tries| == try && tries == Answers(mirrors, try)
      invariant t == AfterTries(item, tries)
    {
      var failedQueue: bool := *;
      if failedQueue {
        return LeftEarly, t, tries;
      }
      var resp := mirrors(try);
      ghost var before := t;
      tries := tries + [resp];
      assert DropLast(tries) == Answers(mirrors, try);
      if Usable(resp) {
        var seekOk: bool := *;
        if resp.status == 200 && !seekOk {
          return HandledError, t, tries;
        }
        var stopped;
        stopped, t := ReadBody(item, t, resp);
        if stopped.Some? {
          return stopped.value, t, tries;
        }
        if resp.complete {
          success := true;
          break;
        }
      }
    }
    var endSeekOk: bool := *;
    if !success || !endSeekOk || t.pos != t.progress || (t.filesize > 0 && t.pos != t.filesize) {
      return HandledError, t, tries;
    }
    if item.checksum.Some? && hash(t.hashed) != item.checksum.value {
      return HandledError, t, tries;
    }
    return Succeeded, t, tries;
  }

  method ReadBody<D>(item: Item<D>, before: Transfer, resp: Response) returns (stopped: Option<Exit>, t: Transfer)
    requires Usable(resp) && before.pos <= |before.file|
    ensures stopped.None? ==> t == Attempt(item, before, resp)
    ensures stopped.Some? ==> stopped.value != Succeeded
  {
    t := Accept(item, before, resp);
    ghost var start := t;
    for i := 0 to |resp.blocks|
      invariant t.pos <= |t.file| && t == ReceiveAll(start, resp.blocks[..i])
    {
      var writeOk: bool, stop: bool := *, *;
      if !writeOk {
        return Some(HandledError), t;
      }
      t := Receive(t, resp.blocks[i]);
      assert DropLast(resp.blocks[..i + 1]) == resp.blocks[..i];
      if stop {
        return Some(LeftEarly), t;
      }
    }
    TakeAll(resp.blocks);
    var writeOk: bool := *;
    if !writeOk {
      return Some(HandledError), t;
    }
    t := Receive(t, resp.last);
    return None, t;
  }

  // ----- What holds after any sequence of answers

  ghost predicate Consistent(t: Transfer) {
    && t.pos <= |t.file|
    && t.progress == t.pos % TWO_32
    && t.hashed == t.file[..t.pos]
  }

  lemma ReceiveKeeps(t: Transfer, data: Bytes)
    requires Consistent(t)
    ensures Consistent(Receive(t, data))
  {
  }

  lemma {:induction false} ReceiveAllKeeps(t: Transfer, blocks: seq<Bytes>)
    requires Consistent(t)
    ensures Consistent(ReceiveAll(t, blocks))
  {
    if blocks != [] {
      ReceiveAllKeeps(t, DropLast(blocks));
      ReceiveKeeps(ReceiveAll(t, DropLast(blocks)), blocks[|blocks| - 1]);
    }
  }

  // Through failures, restarts and resumptions, the counter is the offset
  // modulo 2^32 and the hasher has read exactly the file up to the offset.
  lemma {:induction false} TriesKeepConsistent<D>(item: Item<D>, responses: seq<Response>)
    ensures Consistent(AfterTries(item, responses))
  {
    if responses != [] {
      var t, resp := AfterTries(item, DropLast(responses)), responses[|responses| - 1];
      TriesKeepConsistent(item, DropLast(responses));
      if Usable(resp) {
        ReceiveAllKeeps(Accept(item, t, resp), resp.blocks);
        ReceiveKeeps(ReceiveAll(Accept(item, t, resp), resp.blocks), resp.last);
      }
    }
  }

  lemma {:induction false} SizeStaysKnown<D>(item: Item<D>, responses: seq<Response>)
    requires item.filesize > 0 && item.checksum.None?
    ensures AfterTries(item, responses).filesize == item.filesize
  {
    if responses != [] {
      var t, resp := AfterTries(item, DropLast(responses)), responses[|responses| - 1];
      SizeStaysKnown(item, DropLast(responses));
      if Usable(resp) {
        ReceiveAllKeepsSize(Accept(item, t, resp), resp.blocks);
      }
    }
  }

  lemma {:induction false} ReceiveAllKeepsSize(t: Transfer, blocks: seq<Bytes>)
    requires t.pos <= |t.file|
    ensures ReceiveAll(t, blocks).filesize == t.filesize
  {
    if blocks != [] {
      ReceiveAllKeepsSize(t, DropLast(blocks));
    }
  }

  ghost predicate Announces(resp: Response, size: int) {
    Usable(resp) && resp.status == 200 && resp.contentLength == size
  }

  // Without a known size, the first full answer with a positive length sets it.
  lemma {:induction false} SizeIsFirstAnnounced<D>(item: Item<D>, responses: seq<Response>)
    requires item.filesize <= 0
    ensures var size := AfterTries(item, responses).filesize;
            if size > 0 then
              exists i :: && 0 <= i < |responses| && Announces(responses[i], size)
                          && forall j, n | 0 <= j < i && Announces(responses[j], n) :: n <= 0
            else
              forall j, n | 0 <= j < |responses| && Announces(responses[j], n) :: n <= 0
  {
    if responses != [] {
      var before, resp := DropLast(responses), responses[|responses| - 1];
      var t := AfterTries(item, before);
      SizeIsFirstAnnounced(item, before);
      if t.filesize > 0 {
        var i :| && 0 <= i < |before| && Announces(before[i], t.filesize)
                 && forall j, n | 0 <= j < i && Announces(before[j], n) :: n <= 0;
        assert Announces(responses[i], t.filesize);
        forall j, n | 0 <= j < i && Announces(responses[j], n) ensures n <= 0 {
          assert responses[j] == before[j];
        }
      } else {
        forall j, n | 0 <= j < |before| && Announces(responses[j], n) ensures n <= 0 {
          assert responses[j] == before[j];
        }
        assert Usable(resp) && resp.status == 200 ==> Announces(responses[|responses| - 1], resp.contentLength);
      }
      if Usable(resp) {
        ReceiveAllKeepsSize(Accept(item, t, resp), resp.blocks);
      }
    }
  }

  // ----- The expected length of an item with a checksum

  // The k-th answer announces an unexpected length, and this is what it leads to.
  predicate Surprise<D>(item: Item<D>, responses: seq<Response>, k: nat)
    requires k < |responses|
  {
    Usable(responses[k]) && Unexpected(item, AfterTries(item, responses[..k]), responses[k])
  }

  function Announced<D>(item: Item<D>, responses: seq<Response>, k: nat): int
    requires k < |responses| && Usable(responses[k])
  {
    responses[k].contentLength + HeaderProgress(AfterTries(item, responses[..k]), responses[k])
  }

  function LastSurprise<D>(item: Item<D>, responses: seq<Response>): (k: Option<nat>)
    ensures k.Some? ==> k.value < |responses| && Usable(responses[k.value])
  {
    if responses == [] then None
    else if Surprise(item, responses, |responses| - 1) then Some(|responses| - 1)
    else LastSurprise(item, DropLast(responses))
  }

  predicate RestartsBehind(responses: seq<Response>, k: nat) {
    exists j :: k < j < |responses| && Usable(responses[j]) && responses[j].status == 200
  }

  lemma SurpriseOfPrefix<D>(item: Item<D>, responses: seq<Response>, k: nat)
    requires k < |responses| - 1
    ensures var before := DropLast(responses);
            && Surprise(item, responses, k) == Surprise(item, before, k)
            && (Usable(responses[k]) ==> Announced(item, responses, k) == Announced(item, before, k))
  {
    assert responses[..k] == DropLast(responses)[..k];
  }

  lemma {:induction false} LastSurpriseIs<D>(item: Item<D>, responses: seq<Response>)
    ensures match LastSurprise(item, responses)
            case None => forall k | 0 <= k < |responses| :: !Surprise(item, responses, k)
            case Some(k) => Surprise(item, responses, k) && forall j | k < j < |responses| ::
                              !Surprise(item, responses, j)
  {
    if responses != [] {
      LastSurpriseIs(item, DropLast(responses));
      forall k | 0 <= k < |responses| - 1
        ensures Surprise(item, responses, k) == Surprise(item, DropLast(responses), k)
      {
        SurpriseOfPrefix(item, responses, k);
      }
    }
  }

  lemma RestartsOneMore(responses: seq<Response>, k: nat)
    requires k < |responses| - 1
    ensures RestartsBehind(responses, k) <==>
            RestartsBehind(DropLast(responses), k) ||
            (Usable(responses[|responses| - 1]) && responses[|responses| - 1].status == 200)
  {
  }

  // The item's own length counts until an answer announces another one; only when
  // that one is no length at all can a restart bring the item's length back.
  lemma {:induction false} SizeOfCheckedItem<D>(item: Item<D>, responses: seq<Response>)
    requires item.filesize > 0 && item.checksum.Some?
    ensures AfterTries(item, responses).filesize ==
            match LastSurprise(item, responses)
            case None => item.filesize
            case Some(k) =>
              var size := Announced(item, responses, k);
              if size <= 0 && RestartsBehind(responses, k) then item.filesize else size
  {
    if responses != [] {
      var before, resp := DropLast(responses), responses[|responses| - 1];
      var t := AfterTries(item, before);
      SizeOfCheckedItem(item, before);
      assert responses[..|responses| - 1] == before;
      if Usable(resp) {
        ReceiveAllKeepsSize(Accept(item, t, resp), resp.blocks);
      }
      match LastSurprise(item, before) {
        case None =>
        case Some(k) =>
          SurpriseOfPrefix(item, responses, k);
          RestartsOneMore(responses, k);
      }
    }
  }

  // What is downloaded has the item's length if and only if no answer announced
  // another one for good.
  predicate KeepsLength<D>(item: Item<D>, responses: seq<Response>) {
    match LastSurprise(item, responses)
    case None => true
    case Some(k) => Announced(item, responses, k) <= 0 && RestartsBehind(responses, k)
  }

  lemma {:induction false} PassesWithItsLength<D>(hash: Bytes -> D, item: Item<D>, responses: seq<Response>)
    requires item.filesize > 0 && item.checksum.Some? && Passes(hash, item, AfterTries(item, responses))
    ensures var t := AfterTries(item, responses);
            && (t.filesize > 0 ==> (t.pos == item.filesize <==> KeepsLength(item, responses)))
            && (t.filesize <= 0 <==> exists k :: LastSurprise(item, responses) == Some(k)
                                                 && Announced(item, responses, k) <= 0 && !RestartsBehind(responses, k))
  {
    SizeOfCheckedItem(item, responses);
    LastSurpriseIs(item, responses);
  }

  // One answer of another length passes with that length, and one of unknown
  // length with any: three bytes were expected.
  lemma {:induction false} OtherLengthPasses<D>(hash: Bytes -> D)
    ensures var item := Item(Some(hash([9])), 3);
            && (var t := AfterTries(item, [Response(200, 1, [], [9], true)]);
                Passes(hash, item, t) && t.pos == t.filesize == 1)
            && (var t := AfterTries(item, [Response(200, -1, [], [9], true)]);
                Passes(hash, item, t) && t.pos == 1 && t.filesize == -1)
  {
    var item := Item(Some(hash([9])), 3);
    forall n | n == 1 || n == -1
      ensures AfterTries(item, [Response(200, n, [], [9], true)]) == Transfer([9], 1, 1, [9], n)
    {
      var resp := Response(200, n, [], [9], true);
      assert DropLast([resp]) == [];
      assert Accept(item, FirstTransfer(item), resp) == Transfer([], 0, 0, [], n);
      assert Overwrite([], 0, [9]) == [9];
      assert AfterTries(item, [resp]) == Attempt(item, FirstTransfer(item), resp);
    }
  }

  // What a worker that leaves by the success path has checked.
  lemma {:induction false} PassedIsVerified<D>(hash: Bytes -> D, item: Item<D>, responses: seq<Response>)
    requires Passes(hash, item, AfterTries(item, responses))
    ensures var t := AfterTries(item, responses);
            && t.pos <= |t.file| && t.pos < TWO_32
            && (item.checksum.Some? ==> hash(t.file[..t.pos]) == item.checksum.value)
            && (item.filesize > 0 && item.checksum.None? ==> t.pos == item.filesize)
            && (item.filesize > 0 && item.checksum.Some? && t.filesize > 0 ==>
                  (t.pos == item.filesize <==> KeepsLength(item, responses)))
            && (item.filesize <= 0 ==> forall i, n |
                    && 0 <= i < |responses| && n > 0 && Announces(responses[i], n)
                    && (forall j, k | 0 <= j < i && Announces(responses[j], k) :: k <= 0) :: t.pos == n)
  {
    TriesKeepConsistent(item, responses);
    if item.filesize > 0 && item.checksum.None? {
      SizeStaysKnown(item, responses);
    } else if item.filesize > 0 {
      PassesWithItsLength(hash, item, responses);
    } else {
      SizeIsFirstAnnounced(item, responses);
    }
  }

  // ----- The file on disk

  function Max(a: nat, b: nat): nat {
    if a < b then b else a
  }

  // The furthest offset that any try ended at.
  function Peak<D>(item: Item<D>, responses: seq<Response>): nat {
    if responses == [] then 0
    else Max(Peak(item, DropLast(responses)), AfterTries(item, responses).pos)
  }

  lemma {:induction false} ReceiveAllGrows(t: Transfer, blocks: seq<Bytes>)
    requires t.pos <= |t.file|
    ensures var r := ReceiveAll(t, blocks); r.pos >= t.pos && |r.file| == Max(|t.file|, r.pos)
  {
    if blocks != [] {
      ReceiveAllGrows(t, DropLast(blocks));
    }
  }

  lemma {:induction false} FileReachesPeak<D>(item: Item<D>, responses: seq<Response>)
    ensures |AfterTries(item, responses).file| == Peak(item, responses)
  {
    if responses != [] {
      var t, resp := AfterTries(item, DropLast(responses)), responses[|responses| - 1];
      FileReachesPeak(item, DropLast(responses));
      if Usable(resp) {
        ReceiveAllGrows(Accept(item, t, resp), resp.blocks);
      }
    }
  }

  // No try, this one and all before it, ended beyond n.
  predicate NoneBeyond<D>(item: Item<D>, responses: seq<Response>, n: nat) {
    AfterTries(item, responses).pos <= n && (responses != [] ==> NoneBeyond(item, DropLast(responses), n))
  }

  lemma {:induction false} PeakBounds<D>(item: Item<D>, responses: seq<Response>, n: nat)
    ensures Peak(item, responses) <= n <==> NoneBeyond(item, responses, n)
  {
    if responses != [] {
      PeakBounds(item, DropLast(responses), n);
    }
  }

  // A restart does not cut the file off: the bytes that were checked are the
  // whole file exactly when no earlier try got further than the last one.
  lemma {:induction false} CheckedBytesAreTheFile<D>(item: Item<D>, responses: seq<Response>)
    ensures var t := AfterTries(item, responses);
            t.hashed == t.file <==> NoneBeyond(item, responses, t.pos)
  {
    TriesKeepConsistent(item, responses);
    FileReachesPeak(item, responses);
    PeakBounds(item, responses, AfterTries(item, responses).pos);
  }

  // Two answers of unknown length: the shorter second one passes the checksum
  // while the file keeps the tail of the first.
  lemma {:induction false} StaleTailPasses<D>(hash: Bytes -> D)
    ensures var item := Item(Some(hash([9])), 0);
            var tries := [Response(200, -1, [], [1, 2, 3], false), Response(200, -1, [], [9], true)];
            var t := AfterTries(item, tries);
            Passes(hash, item, t) && t.hashed == [9] && t.file == [9, 2, 3]
  {
    var item := Item(Some(hash([9])), 0);
    var first, second := Response(200, -1, [], [1, 2, 3], false), Response(200, -1, [], [9], true);
    assert DropLast([first, second]) == [first] && DropLast([first]) == [];
    var t0 := FirstTransfer(item);
    var t1 := Attempt(item, t0, first);
    assert t1 == Transfer([1, 2, 3], 3, 3, [1, 2, 3], -1) by {
      assert Overwrite([], 0, [1, 2, 3]) == [1, 2, 3];
    }
    assert AfterTries(item, [first]) == t1;
    assert AfterTries(item, [first, second]) == Attempt(item, t1, second);
    assert Overwrite([1, 2, 3], 0, [9]) == [9, 2, 3];
    assert AfterTries(item, [first, second]).hashed == [9];
  }
}
