/**
 The body of an answer: written into chunks of a fixed size, charged document by document
 as it is written, and handed over piece by piece while the memory it took stays held.
 */
module AnswerBody {
  import opened Outcomes
  import opened JsonText

  const ANSWER_CHUNK_BYTES: nat := 64 * 1024

  function Concat(chunks: seq<string>): string {
    if chunks == [] then "" else Concat(chunks[..|chunks| - 1]) + chunks[|chunks| - 1]
  }

  lemma ConcatSnoc(chunks: seq<string>, last: string)
    ensures Concat(chunks + [last]) == Concat(chunks) + last
  {
    assert (chunks + [last])[..|chunks|] == chunks;
  }

  lemma {:induction false} ConcatCons(first: string, chunks: seq<string>)
    ensures Concat([first] + chunks) == first + Concat(chunks)
  {
    if chunks == [] {
      assert [first] + chunks == [] + [first];
      ConcatSnoc([], first);
    } else {
      var front, last := chunks[..|chunks| - 1], chunks[|chunks| - 1];
      ConcatCons(first, front);
      assert [first] + chunks == ([first] + front) + [last];
      ConcatSnoc([first] + front, last);
    }
  }

  /** Every chunk but the last is full, and the last holds something. */
  predicate Chunked(chunks: seq<string>) {
    forall i :: 0 <= i < |chunks| ==>
      0 < |chunks[i]| <= ANSWER_CHUNK_BYTES && (i < |chunks| - 1 ==> |chunks[i]| == ANSWER_CHUNK_BYTES)
  }

  predicate AllFull(chunks: seq<string>) {
    forall i :: 0 <= i < |chunks| ==> |chunks[i]| == ANSWER_CHUNK_BYTES
  }

  // ---------------------------------------------------------------------------
  // Writing
  // ---------------------------------------------------------------------------

  /** Collects bytes, which are characters here, into pieces cut at `ANSWER_CHUNK_BYTES`. */
  class ChunkWriter {
    var done: seq<string>
    var len: nat
    var current: string

    ghost predicate Valid()
      reads this
    {
      AllFull(done) && |current| < ANSWER_CHUNK_BYTES && len == |Concat(done)|
    }

    ghost function Written(): string
      reads this
    {
      Concat(done) + current
    }

    constructor ()
      ensures Valid() && Written() == ""
    {
      done, len, current := [], 0, "";
    }

    function Len(): (n: nat)
      requires Valid()
      reads this
      ensures n == |Written()|
    {
      len + |current|
    }

    method Write(buf: string) returns (written: nat)
      requires Valid()
      modifies this
      ensures Valid() && Written() == old(Written()) + buf && written == |buf|
    {
      var rest := buf;
      while rest != ""
        invariant Valid() && Written() + rest == old(Written()) + buf
        decreases |rest|
      {
        ghost var before := Written();
        var room := ANSWER_CHUNK_BYTES - |current|;
        var take := if room < |rest| then room else |rest|;
        var now, later := rest[..take], rest[take..];
        assert rest == now + later;
        current, rest := current + now, later;
        assert Written() == before + now;
        if |current| == ANSWER_CHUNK_BYTES {
          ConcatSnoc(done, current);
          done, len, current := done + [current], len + ANSWER_CHUNK_BYTES, "";
        }
      }
      return |buf|;
    }

    method Finish() returns (body: seq<string>)
      requires Valid()
      modifies this
      ensures Chunked(body) && Concat(body) == old(Written())
    {
      if current != "" {
        ConcatSnoc(done, current);
        len, done, current := len + |current|, done + [current], "";
      }
      return done;
    }
  }

  // ---------------------------------------------------------------------------
  // Handing over
  // ---------------------------------------------------------------------------

  predicate NoneEmpty(chunks: seq<string>) { forall i :: 0 <= i < |chunks| ==> chunks[i] != "" }

  /** The chunks that are not empty. */
  function Kept(chunks: seq<string>): (kept: seq<string>)
    ensures NoneEmpty(kept) && Concat(kept) == Concat(chunks)
  {
    if chunks == [] then []
    else
      var front, last := Kept(chunks[..|chunks| - 1]), chunks[|chunks| - 1];
      if last == "" then front else ConcatSnoc(front, last); front + [last]
  }

  /** A response body over chunks of any size that keeps what it holds until it is polled
      after its last piece. */
  class HeldBody {
    var chunks: seq<string>
    var left: nat
    var held: bool

    ghost predicate Valid()
      reads this
    {
      NoneEmpty(chunks) && left == |Concat(chunks)| && (chunks != [] ==> held)
    }

    ghost function Rest(): string
      reads this
    {
      Concat(chunks)
    }

    constructor (pieces: seq<string>)
      ensures Valid() && Rest() == Concat(pieces) && held
    {
      chunks, left, held := Kept(pieces), |Concat(pieces)|, true;
    }

    /** The next piece, or nothing once everything has been handed over; only then is the
        hold let go. */
    method PollFrame() returns (piece: Option<string>)
      requires Valid()
      modifies this
      ensures Valid()
      ensures piece.None? <==> old(Rest()) == ""
      ensures piece.Some? ==>
                0 < |piece.value| <= ANSWER_CHUNK_BYTES && old(Rest()) == piece.value + Rest() && held == old(held)
      ensures piece.None? ==> !held && Rest() == ""
      ensures |Rest()| <= old(|Rest()|)
    {
      if chunks == [] {
        held := false;
        return None;
      }
      var front, others := chunks[0], chunks[1..];
      assert chunks == [front] + others;
      ConcatCons(front, others);
      if |front| > ANSWER_CHUNK_BYTES {
        var now, later := front[..ANSWER_CHUNK_BYTES], front[ANSWER_CHUNK_BYTES..];
        assert front == now + later;
        ConcatCons(later, others);
        assert now + later + Concat(others) == now + (later + Concat(others));
        chunks := [later] + others;
        piece := Some(now);
      } else {
        chunks := others;
        piece := Some(front);
      }
      left := left - |piece.value|;
    }

    predicate IsEndStream()
      requires Valid()
      reads this
      ensures IsEndStream() <==> Rest() == ""
    {
      if chunks == [] then true
      else
        assert chunks[|chunks| - 1] != "";
        false
    }

    /** Exact at every point of the body. */
    function SizeHint(): (n: nat)
      requires Valid()
      reads this
      ensures n == |Rest()|
    {
      left
    }
  }

  predicate Small(frames: seq<string>) { forall i :: 0 <= i < |frames| ==> 0 < |frames[i]| <= ANSWER_CHUNK_BYTES }

  /** Polling a body to its end hands over its bytes, all of them in order, in pieces of at
      most a chunk.  `kept` says after each piece whether the hold is still there: it always
      is, and the poll after the last piece lets it go. */
  method HandOver(body: HeldBody) returns (frames: seq<string>, kept: seq<bool>)
    requires body.Valid() && body.held
    modifies body
    ensures Concat(frames) == old(body.Rest()) && Small(frames) && !body.held
    ensures |kept| == |frames| && false !in kept
  {
    frames, kept := [], [];
    while true
      invariant body.Valid() && body.held
      invariant Concat(frames) + body.Rest() == old(body.Rest()) && Small(frames)
      invariant |kept| == |frames| && false !in kept
      decreases |body.Rest()|
    {
      var piece := body.PollFrame();
      if piece.None? { return; }
      ConcatSnoc(frames, piece.value);
      frames, kept := frames + [piece.value], kept + [body.held];
    }
  }

  /** Whatever is written, in however many writes, is what goes out, with the hold kept to
      the last piece. */
  method WriteAndHandOver(writes: seq<string>) returns (frames: seq<string>, kept: seq<bool>)
    ensures Concat(frames) == Concat(writes) && Small(frames)
    ensures |kept| == |frames| && false !in kept
  {
    var writer := new ChunkWriter();
    for i := 0 to |writes|
      invariant fresh(writer) && writer.Valid() && writer.Written() == Concat(writes[..i])
    {
      var _ := writer.Write(writes[i]);
      assert writes[..i + 1] == writes[..i] + [writes[i]];
      ConcatSnoc(writes[..i], writes[i]);
    }
    assert writes[..|writes|] == writes;
    var chunks := writer.Finish();
    var body := new HeldBody(chunks);
    frames, kept := HandOver(body);
  }

  // ---------------------------------------------------------------------------
  // The answer of an aggregate
  // ---------------------------------------------------------------------------

  /** Whether the lease may hold so much. */
  type Limit = nat -> bool

  /** The JSON of each document, as `write` writes it. */
  function Texts<D>(write: D -> string, docs: seq<D>): (texts: seq<string>)
    ensures |texts| == |docs|
  {
    if docs == [] then [] else Texts(write, docs[..|docs| - 1]) + [write(docs[|docs| - 1])]
  }

  /** Charging each document in turn by the length of its JSON, on top of `held`: the bytes
      charged, or the place of the document that is refused. */
  function Charge<D>(write: D -> string, docs: seq<D>, held: nat, limit: Limit): Result<nat, nat> {
    if docs == [] then Ok(0)
    else
      match Charge(write, docs[..|docs| - 1], held, limit)
      case Err(at) => Err(at)
      case Ok(total) =>
        var more := total + |write(docs[|docs| - 1])|;
        if limit(held + more) then Ok(more) else Err(|docs| - 1)
  }

  /** The bytes of the documents' JSON. */
  function JsonBytes<D>(write: D -> string, docs: seq<D>): nat {
    if docs == [] then 0 else JsonBytes(write, docs[..|docs| - 1]) + |write(docs[|docs| - 1])|
  }

  /** Every running total is within the limit. */
  predicate Granted<D>(write: D -> string, docs: seq<D>, held: nat, limit: Limit) {
    docs != [] ==> limit(held + JsonBytes(write, docs)) && Granted(write, docs[..|docs| - 1], held, limit)
  }

  /** Nothing is refused exactly when every running total is within the limit, and a refusal
      is at the first that is not. */
  lemma {:induction false} ChargeMeaning<D>(write: D -> string, docs: seq<D>, held: nat, limit: Limit)
    ensures var r := Charge(write, docs, held, limit);
            && (r.Ok? <==> Granted(write, docs, held, limit))
            && (r.Ok? ==> r.value == JsonBytes(write, docs))
            && (r.Err? ==> r.error < |docs| && Granted(write, docs[..r.error], held, limit)
                           && !limit(held + JsonBytes(write, docs[..r.error + 1])))
  {
    if docs == [] {
    } else {
      var n := |docs| - 1;
      ChargeMeaning(write, docs[..n], held, limit);
      var r := Charge(write, docs[..n], held, limit);
      if r.Err? {
        assert docs[..n][..r.error] == docs[..r.error] && docs[..n][..r.error + 1] == docs[..r.error + 1];
      } else {
        assert docs[..n + 1] == docs;
      }
    }
  }

  lemma {:induction false} RefusalStands<D>(write: D -> string, docs: seq<D>, n: nat, held: nat, limit: Limit)
    requires n <= |docs| && Charge(write, docs[..n], held, limit).Err?
    ensures Charge(write, docs, held, limit) == Charge(write, docs[..n], held, limit)
  {
    if n < |docs| {
      assert docs[..|docs| - 1][..n] == docs[..n];
      RefusalStands(write, docs[..|docs| - 1], n, held, limit);
    } else {
      assert docs[..n] == docs;
    }
  }

  lemma ChargeNext<D>(write: D -> string, docs: seq<D>, at: nat, total: nat, held: nat, limit: Limit)
    requires at < |docs| && Charge(write, docs[..at], held, limit) == Ok(total)
    ensures var more := total + |write(docs[at])|;
            if limit(held + more) then Charge(write, docs[..at + 1], held, limit) == Ok(more)
            else Charge(write, docs, held, limit) == Err(at)
  {
    assert docs[..at + 1][..at] == docs[..at];
    if !limit(held + total + |write(docs[at])|) { RefusalStands(write, docs, at + 1, held, limit); }
  }

  /** The documents as values, charged by the length of each. */
  method CollectDocuments<D>(write: D -> string, docs: seq<D>, held: nat, limit: Limit)
    returns (r: Result<nat, nat>, documents: seq<D>)
    ensures r == Charge(write, docs, held, limit) && (r.Ok? ==> documents == docs)
  {
    documents := [];
    var lease, total := held, 0;
    for at := 0 to |docs|
      invariant documents == docs[..at] && lease == held + total
      invariant Charge(write, docs[..at], held, limit) == Ok(total)
    {
      ChargeNext(write, docs, at, total, held, limit);
      var len := |write(docs[at])|;
      lease := lease + len;
      if !limit(lease) { return Err(at), documents; }
      total := total + len;
      documents := documents + [docs[at]];
    }
    assert docs[..|docs|] == docs;
    return Ok(total), documents;
  }

  /** The bytes that the document at `at` adds to the body. */
  function Added<D>(write: D -> string, docs: seq<D>, at: nat): string
    requires at < |docs|
  {
    (if at == 0 then "" else ",") + write(docs[at])
  }

  lemma AddedNext<D>(write: D -> string, docs: seq<D>, n: nat)
    requires n < |docs|
    ensures Join(Texts(write, docs[..n + 1])) == Join(Texts(write, docs[..n])) + Added(write, docs, n)
  {
    assert docs[..n + 1][..n] == docs[..n];
    JoinSnoc(Texts(write, docs[..n]), write(docs[n]));
  }

  /** Writes one more document, after a comma unless it is the first, and gives the bytes it
      took. */
  method WriteDocument<D>(body: ChunkWriter, write: D -> string, docs: seq<D>, at: nat) returns (len: nat)
    requires body.Valid() && at < |docs|
    modifies body
    ensures body.Valid() && len == |write(docs[at])|
    ensures body.Written() == old(body.Written()) + Added(write, docs, at)
  {
    if at > 0 {
      var _ := body.Write(",");
    }
    var start := body.Len();
    var _ := body.Write(write(docs[at]));
    len := body.Len() - start;
  }

  lemma Associate(a: string, b: string, c: string)
    ensures a + b + c == a + (b + c)
  {
  }

  /** Writes the documents between commas, charging each by the bytes it took. */
  method WriteDocuments<D>(body: ChunkWriter, write: D -> string, docs: seq<D>, held: nat, limit: Limit)
    returns (r: Result<nat, nat>)
    requires body.Valid()
    modifies body
    ensures body.Valid() && r == Charge(write, docs, held, limit)
    ensures r.Ok? ==> body.Written() == old(body.Written()) + Join(Texts(write, docs))
  {
    var lease, total := held, 0;
    ghost var before := body.Written();
    for at := 0 to |docs|
      invariant body.Valid() && lease == held + total
      invariant body.Written() == before + Join(Texts(write, docs[..at]))
      invariant Charge(write, docs[..at], held, limit) == Ok(total)
    {
      ChargeNext(write, docs, at, total, held, limit);
      AddedNext(write, docs, at);
      Associate(before, Join(Texts(write, docs[..at])), Added(write, docs, at));
      var len := WriteDocument(body, write, docs, at);
      lease := lease + len;
      if !limit(lease) { return Err(at); }
      total := total + len;
    }
    assert docs[..|docs|] == docs;
    return Ok(total);
  }

  // The whole answer.

  function AnswerOf(docs: seq<Json>): Json {
    Obj([Field("documents", Arr(docs)), Field("count", Number(Integer(|docs|)))])
  }

  function Writing(style: Style): Json -> string { j => Text(style, j) }

  /** Names without anything to escape are written between quotes. */
  ghost predicate QuotesNames(style: Style) {
    style.quote("documents") == "\"documents\"" && style.quote("count") == "\"count\""
  }

  const OPENING := "{\"documents\":["

  function Closing(count: nat): string { "],\"count\":" + Decimal(count) + "}" }

  lemma {:induction false} WritesItems(style: Style, docs: seq<Json>)
    ensures Texts(Writing(style), docs) == ItemTexts(style, docs)
  {
    if docs == [] {
    } else {
      WritesItems(style, docs[..|docs| - 1]);
    }
  }

  /** The text of the answer as the pieces it is written in. */
  lemma AnswerText(style: Style, docs: seq<Json>)
    requires QuotesNames(style)
    ensures Text(style, AnswerOf(docs)) == OPENING + Join(ItemTexts(style, docs)) + Closing(|docs|)
  {
    TwoFields(style, Field("documents", Arr(docs)), Field("count", Number(Integer(|docs|))));
    Reassociate(style.quote("documents"), Join(ItemTexts(style, docs)), style.quote("count"), Decimal(|docs|));
    assert "{" + style.quote("documents") + ":[" == OPENING;
    assert "]," + style.quote("count") + ":" == "],\"count\":";
  }

  lemma Reassociate(documents: string, inner: string, count: string, n: string)
    ensures "{" + (documents + ":" + ("[" + inner + "]")) + "," + (count + ":" + n) + "}" ==
            ("{" + documents + ":[") + inner + (("]," + count + ":") + n + "}")
  {
  }

  /** The answer as a value, with what the lease has for it once the documents are let go.
      `held` is what the lease already has for them. */
  method ConcludeValue(style: Style, docs: seq<Json>, held: nat, limit: Limit) returns (r: Result<(Json, nat), nat>)
    ensures match Charge(Writing(style), docs, held, limit)
            case Ok(total) =>
              r == Ok((Obj([Field("documents", Arr(docs)), Field("count", Number(Integer(|docs|)))]), total))
            case Err(at) => r == Err(at)
  {
    var charged, documents := CollectDocuments(Writing(style), docs, held, limit);
    if charged.Err? { return Err(charged.error); }
    return Ok((AnswerOf(documents), charged.value));
  }

  /** The answer written straight into a body.  It is refused at the document at which the
      answer as a value is; when it is not, the bytes are the text of that value, in full
      chunks but for the last, and what stays charged is the same. */
  method ConcludeBody(style: Style, docs: seq<Json>, held: nat, limit: Limit)
    returns (r: Result<(seq<string>, nat), nat>)
    requires QuotesNames(style)
    ensures match Charge(Writing(style), docs, held, limit)
            case Ok(total) =>
              && r.Ok? && r.value.1 == total
              && Chunked(r.value.0)
              && Concat(r.value.0) ==
                 Text(style, Obj([Field("documents", Arr(docs)), Field("count", Number(Integer(|docs|)))]))
            case Err(at) => r == Err(at)
  {
    AnswerText(style, docs);
    WritesItems(style, docs);
    var body := new ChunkWriter();
    var _ := body.Write(OPENING);
    assert body.Written() == OPENING;
    var written := WriteDocuments(body, Writing(style), docs, held, limit);
    if written.Err? { return Err(written.error); }
    var _ := body.Write(Closing(|docs|));
    var chunks := body.Finish();
    return Ok((chunks, written.value));
  }

  /** An aggregate's answer from its documents to the wire: refused where the charges are, or
      handed over as the text of the answer, with the lease held to the last piece. */
  method Respond(style: Style, docs: seq<Json>, held: nat, limit: Limit)
    returns (r: Result<seq<string>, nat>, kept: seq<bool>)
    requires QuotesNames(style)
    ensures match Charge(Writing(style), docs, held, limit)
            case Err(at) => r == Err(at)
            case Ok(_) =>
              && r.Ok? && Small(r.value)
              && Concat(r.value) ==
                 Text(style, Obj([Field("documents", Arr(docs)), Field("count", Number(Integer(|docs|)))]))
              && |kept| == |r.value| && false !in kept
  {
    var concluded := ConcludeBody(style, docs, held, limit);
    if concluded.Err? { return Err(concluded.error), []; }
    var body := new HeldBody(concluded.value.0);
    var frames;
    frames, kept := HandOver(body);
    return Ok(frames), kept;
  }
}
