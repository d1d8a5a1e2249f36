/** Decoding a stream that arrives in pieces: how the bytes are cut into reads does not
    matter (src/decode.rs, and the read loop of src/tcp/mod.rs). */
module Chunks {
  import opened Bytes
  import opened Protocol
  import opened Framing

  /** The result of decoding until the decoder asks for more or fails. After a failure
      nothing is decoded any more, so no leftover is kept. */
  datatype Drained =
    | Waiting(msgs: seq<Message>, rest: seq<byte>)
    | Broken(msgs: seq<Message>, error: NetError)

  function Prepend(ms: seq<Message>, d: Drained): Drained {
    d.(msgs := ms + d.msgs)
  }

  /** The decode-until-None loop on a whole byte string. */
  function DrainAll(s: seq<byte>, settings: Settings): (d: Drained)
    decreases |s|
  {
    match Parse(s, settings)
    case Incomplete => Waiting([], s)
    case Malformed(error, _) => Broken([], error)
    case Complete(msg, used) => Prepend([msg], DrainAll(s[used..], settings))
  }

  /** One more read: the new bytes follow the leftover of the reads before. */
  function Feed(d: Drained, chunk: seq<byte>, settings: Settings): Drained {
    match d
    case Waiting(msgs, rest) => Prepend(msgs, DrainAll(rest + chunk, settings))
    case Broken(_, _) => d
  }

  function FeedAll(d: Drained, chunks: seq<seq<byte>>, settings: Settings): Drained
    decreases |chunks|
  {
    if |chunks| == 0 then d else FeedAll(Feed(d, chunks[0], settings), chunks[1..], settings)
  }

  function Concat(chunks: seq<seq<byte>>): seq<byte> {
    if |chunks| == 0 then [] else chunks[0] + Concat(chunks[1..])
  }

  lemma PrependTwice(ms: seq<Message>, ns: seq<Message>, d: Drained)
    ensures Prepend(ms, Prepend(ns, d)) == Prepend(ms + ns, d)
  {
    assert ms + (ns + d.msgs) == (ms + ns) + d.msgs;
  }

  lemma PrependNothing(d: Drained)
    ensures Prepend([], d) == d
  {
    assert [] + d.msgs == d.msgs;
  }

  /** Decoding what has arrived and then the rest is decoding everything. */
  lemma {:induction false} DrainInTwo(s: seq<byte>, more: seq<byte>, settings: Settings)
    requires !settings.isRaw
    ensures DrainAll(s + more, settings) == Feed(DrainAll(s, settings), more, settings)
    decreases |s|
  {
    var p := Parse(s, settings);
    if p.Incomplete? {
      PrependNothing(DrainAll(s + more, settings));
    } else {
      ParseStable(s, more, settings);
      if p.Complete? {
        assert (s + more)[p.used..] == s[p.used..] + more;
        DrainInTwo(s[p.used..], more, settings);
        var d := DrainAll(s[p.used..], settings);
        if d.Waiting? {
          PrependTwice([p.msg], d.msgs, DrainAll(d.rest + more, settings));
        }
      }
    }
  }

  /** Chunk independence: every way of cutting a byte string into reads decodes to the
      same messages and the same leftover or error as the whole string. */
  lemma {:induction false} ChunkIndependence(s: seq<byte>, chunks: seq<seq<byte>>, settings: Settings)
    requires !settings.isRaw
    ensures FeedAll(DrainAll(s, settings), chunks, settings) == DrainAll(s + Concat(chunks), settings)
    decreases |chunks|
  {
    if |chunks| == 0 {
      assert s + Concat(chunks) == s;
    } else {
      DrainInTwo(s, chunks[0], settings);
      ChunkIndependence(s + chunks[0], chunks[1..], settings);
      ConcatAssoc(s, chunks[0], Concat(chunks[1..]));
    }
  }

  /** One step of draining, given what the decoder makes of the front. */
  lemma {:induction false} DrainOne(s: seq<byte>, m: Message, used: nat, settings: Settings)
    requires Parse(s, settings) == Complete(m, used)
    ensures DrainAll(s, settings) == Prepend([m], DrainAll(s[used..], settings))
  {
  }

  /** What `d` says of the stream `s` it was drained from. */
  ghost predicate Accounts(d: Drained, s: seq<byte>, raw: bool) {
    match d
    case Waiting(msgs, rest) => EncodeAll(msgs, raw) + rest == s
    case Broken(msgs, _) => EncodeAll(msgs, raw) <= s
  }

  /** No byte is lost or made up, in framed and in raw mode: the decoded messages encode
      back to what was taken, and the leftover is the rest. */
  lemma {:induction false} DrainConserves(s: seq<byte>, settings: Settings)
    ensures Accounts(DrainAll(s, settings), s, settings.isRaw)
    decreases |s|
  {
    var p := Parse(s, settings);
    if p.Complete? {
      DrainOne(s, p.msg, p.used, settings);
      DrainConserves(s[p.used..], settings);
      OnlyCanonicalFrames(s, settings);
      PrependAccounts(p.msg, DrainAll(s[p.used..], settings), s[..p.used], s[p.used..], settings.isRaw);
      assert s == s[..p.used] + s[p.used..];
    }
  }

  lemma {:induction false} PrependAccounts(m: Message, d: Drained, head: seq<byte>, tail: seq<byte>, raw: bool)
    requires head == Encode(m, raw) && Accounts(d, tail, raw)
    ensures Accounts(Prepend([m], d), head + tail, raw)
  {
    hide Encode;
    assert ([m] + d.msgs)[1..] == d.msgs;
    if d.Waiting? {
      ConcatAssoc(head, EncodeAll(d.msgs, raw), d.rest);
    } else {
      PrefixAfter(head, EncodeAll(d.msgs, raw), tail);
    }
  }

  lemma {:induction false} FeedAccounts(d: Drained, s: seq<byte>, chunk: seq<byte>, settings: Settings)
    requires Accounts(d, s, settings.isRaw)
    ensures Accounts(Feed(d, chunk, settings), s + chunk, settings.isRaw)
  {
    if d.Waiting? {
      var e := DrainAll(d.rest + chunk, settings);
      var before, after := EncodeAll(d.msgs, settings.isRaw), EncodeAll(e.msgs, settings.isRaw);
      DrainConserves(d.rest + chunk, settings);
      EncodeAllAppend(d.msgs, e.msgs, settings.isRaw);
      ConcatAssoc(before, d.rest, chunk);
      if e.Waiting? {
        ConcatAssoc(before, after, e.rest);
      } else {
        PrefixAfter(before, after, d.rest + chunk);
      }
    }
  }

  /** The same over any way of cutting the stream into reads; in raw mode this is the law
      of the delivered payloads. */
  lemma {:induction false} FeedConserves(d: Drained, s: seq<byte>, chunks: seq<seq<byte>>, settings: Settings)
    requires Accounts(d, s, settings.isRaw)
    ensures Accounts(FeedAll(d, chunks, settings), s + Concat(chunks), settings.isRaw)
    decreases |chunks|
  {
    if |chunks| == 0 {
      assert s + Concat(chunks) == s;
    } else {
      FeedAccounts(d, s, chunks[0], settings);
      FeedConserves(Feed(d, chunks[0], settings), s + chunks[0], chunks[1..], settings);
      ConcatAssoc(s, chunks[0], Concat(chunks[1..]));
    }
  }
}
