/**
 The callback that a streamed prediction runs for every reply of the backend.
 A reply may end in the middle of a rune, so the callback keeps the undecodable
 tail in `partialRune` and forwards only complete runes.
 */
module ReplyStream {
  import opened Basics
  import opened Utf8

  type Delta = string

  datatype Reply = Reply(message: seq<Byte>, tokens: int, deltas: seq<Delta>)

  /** One call of the token callback, with the usage it was given. */
  datatype Token = Token(text: seq<Byte>, completion: int, deltas: seq<Delta>)

  // ---------- What the stream is worth, independent of its chunking ----------

  /** The runes at the front of p that the callback forwards. */
  function Complete(p: seq<Byte>): (done: seq<Byte>)
    ensures |done| <= |p| && done == p[..|done|]
    decreases |p|
  {
    var r := DecodeRune(p);
    if p == [] || r.cp == RUNE_ERROR then []
    else
      DecodeIsEncode(p);
      p[..r.size] + Complete(p[r.size..])
  }

  /** The bytes the callback holds back. */
  function Leftover(p: seq<Byte>): seq<Byte> {
    p[|Complete(p)|..]
  }

  function Messages(replies: seq<Reply>): seq<seq<Byte>> {
    seq(|replies|, i requires 0 <= i < |replies| => replies[i].message)
  }

  function Texts(tokens: seq<Token>): seq<Byte> {
    if tokens == [] then [] else Texts(tokens[..|tokens| - 1]) + tokens[|tokens| - 1].text
  }

  function AllDeltas(replies: seq<Reply>): seq<Delta> {
    if replies == [] then [] else AllDeltas(replies[..|replies| - 1]) + replies[|replies| - 1].deltas
  }

  /** Decoding stops at a rune the decoder refuses: the leftover does not decode. */
  lemma {:induction false} LeftoverIsStuck(p: seq<Byte>)
    ensures Leftover(p) != [] ==> DecodeRune(Leftover(p)).cp == RUNE_ERROR
    ensures Complete(Leftover(p)) == []
    decreases |p|
  {
    var r := DecodeRune(p);
    if p != [] && r.cp != RUNE_ERROR {
      DecodeIsEncode(p);
      LeftoverIsStuck(p[r.size..]);
      assert Leftover(p) == Leftover(p[r.size..]);
    } else {
      assert Leftover(p) == p;
    }
  }

  /**
   Chunk independence, one boundary at a time: decoding p, then what was held
   back together with m, is decoding p + m.
   */
  lemma {:induction false} CompleteAppend(p: seq<Byte>, m: seq<Byte>)
    ensures Complete(p + m) == Complete(p) + Complete(Leftover(p) + m)
    ensures Leftover(p + m) == Leftover(Leftover(p) + m)
    decreases |p|
  {
    hide DecodeRune;
    var r := DecodeRune(p);
    if p == [] || r.cp == RUNE_ERROR {
      assert Leftover(p) == p;
    } else {
      DecodeIsEncode(p);
      DecodeIsStable(p, m);
      var head, q := p[..r.size], p[r.size..];
      assert p == head + q && p + m == head + (q + m);
      CompleteStep(head, q);
      CompleteStep(head, q + m);
      CompleteAppend(q, m);
    }
  }

  lemma CompleteStep(head: seq<Byte>, rest: seq<Byte>)
    requires head != [] && DecodeRune(head + rest).cp != RUNE_ERROR && DecodeRune(head + rest).size == |head|
    ensures Complete(head + rest) == head + Complete(rest)
    ensures Leftover(head + rest) == Leftover(rest)
  {
    hide DecodeRune;
    assert (head + rest)[..|head|] == head && (head + rest)[|head|..] == rest;
  }

  // ---------- When nothing is lost ----------

  /** Text the stream can carry: scalar values other than U+FFFD. */
  predicate Deliverable(cps: seq<int>) {
    forall cp | cp in cps :: IsScalar(cp) && cp != RUNE_ERROR
  }

  /** s is well-formed UTF-8 and contains no U+FFFD. */
  ghost predicate WellFormed(s: seq<Byte>) {
    exists cps: seq<int> :: Deliverable(cps) && EncodeAll(cps) == s
  }

  /**
   The whole stream reaches the caller if and only if it is well-formed UTF-8
   without U+FFFD.  The character U+FFFD itself, correctly encoded, stops the
   stream for good: the decoder reports it with the value that means "error".
   */
  lemma NothingHeldBackIffWellFormed(s: seq<Byte>)
    ensures Leftover(s) == [] <==> Complete(s) == s
    ensures Complete(s) == s <==> WellFormed(s)
  {
    if Complete(s) == s {
      var cps := CompleteIsEncoded(s);
    }
    if WellFormed(s) {
      var cps :| Deliverable(cps) && EncodeAll(cps) == s;
      EncodedIsComplete(cps);
    }
  }

  lemma {:induction false} CompleteIsEncoded(s: seq<Byte>) returns (cps: seq<int>)
    requires Complete(s) == s
    ensures Deliverable(cps) && EncodeAll(cps) == s
    decreases |s|
  {
    if s == [] {
      return [];
    }
    var r := DecodeRune(s);
    DecodeIsEncode(s);
    var q := s[r.size..];
    assert Complete(s)[r.size..] == Complete(q);
    var rest := CompleteIsEncoded(q);
    cps := [r.cp] + rest;
    assert cps[1..] == rest;
    assert s == s[..r.size] + q;
  }

  lemma {:induction false} EncodedIsComplete(cps: seq<int>)
    requires Deliverable(cps)
    ensures Complete(EncodeAll(cps)) == EncodeAll(cps)
  {
    if cps != [] {
      var e, rest := Encode(cps[0]), EncodeAll(cps[1..]);
      DecodeReadsEncode(cps[0], rest);
      EncodedIsComplete(cps[1..]);
      assert (e + rest)[..|e|] == e && (e + rest)[|e|..] == rest;
    }
  }

  /** Every prefix of a deliverable stream is delivered up to at most three bytes. */
  lemma LeftoverIsShort(s: seq<Byte>, k: nat)
    requires WellFormed(s) && k <= |s|
    ensures |Leftover(s[..k])| <= 3
  {
    var left, more := Leftover(s[..k]), s[k..];
    assert s == s[..k] + more;
    NothingHeldBackIffWellFormed(s);
    CompleteAppend(s[..k], more);
    LeftoverIsStuck(s[..k]);
    if |left| >= 4 {
      DecodeIsLocal(left, more);
    }
  }

  /**
   Once four bytes are held back the stream is stuck: no later reply adds a byte
   to the response.
   */
  lemma StuckForever(p: seq<Byte>, more: seq<Byte>)
    requires |Leftover(p)| >= 4
    ensures Complete(p + more) == Complete(p) && Leftover(p + more) == Leftover(p) + more
  {
    CompleteAppend(p, more);
    LeftoverIsStuck(p);
    DecodeIsLocal(Leftover(p), more);
    assert Complete(Leftover(p) + more) == [];
  }

  /** U+FFFD in the middle of good text: valid UTF-8 that the callback never finishes. */
  lemma ReplacementCharacterStopsTheStream()
    ensures var s := Encode('a' as int) + Encode(RUNE_ERROR) + Encode('b' as int);
            EncodeAll(['a' as int, RUNE_ERROR, 'b' as int]) == s
            && Complete(s) == Encode('a' as int) && !WellFormed(s)
  {
    var s := Encode('a' as int) + Encode(RUNE_ERROR) + Encode('b' as int);
    assert s == [0x61, 0xEF, 0xBF, 0xBD, 0x62];
    assert s[1..] == [0xEF, 0xBF, 0xBD, 0x62];
    assert DecodeRune(s[1..]).cp == RUNE_ERROR;
    assert Complete(s[1..]) == [];
    NothingHeldBackIffWellFormed(s);
    var cps := ['a' as int, RUNE_ERROR, 'b' as int];
    assert cps[1..][1..] == ['b' as int] && cps[1..][1..][1..] == [];
    assert EncodeAll(cps[1..][1..]) == Encode('b' as int);
  }

  // ---------- The callback ----------

  lemma ReplyAppended(before: seq<Reply>, reply: Reply)
    ensures Concat(Messages(before + [reply])) == Concat(Messages(before)) + reply.message
    ensures AllDeltas(before + [reply]) == AllDeltas(before) + reply.deltas
  {
    var all := before + [reply];
    assert all[..|all| - 1] == before;
    assert Messages(all)[..|all| - 1] == Messages(before);
  }

  class StreamCallback {
    const replyPrefix: seq<Byte>
    /** The "usage" feature flag: the callback is wrapped in one that counts its calls. */
    const countsUsage: bool
    var partialRune: seq<Byte>
    var response: seq<Byte>
    var allDeltas: seq<Delta>
    var completion: int
    var tokens: seq<Token>

    /** The replies so far decide the whole state; how they were cut does not matter. */
    ghost predicate After(replies: seq<Reply>)
      reads this
    {
      var received := Concat(Messages(replies));
      && response == Complete(received)
      && partialRune == Leftover(received)
      && allDeltas == AllDeltas(replies)
      && Texts(tokens) == replyPrefix + response
    }

    constructor (replyPrefix: seq<Byte>, countsUsage: bool)
      ensures this.replyPrefix == replyPrefix && this.countsUsage == countsUsage
      ensures After([])
      ensures completion == if countsUsage && replyPrefix != [] then 1 else 0
    {
      this.replyPrefix, this.countsUsage := replyPrefix, countsUsage;
      partialRune, response, allDeltas, completion, tokens := [], [], [], 0, [];
      new;
      if replyPrefix != [] {
        Call(replyPrefix, []);
      }
    }

    /** Runs the token callback; with usage counting on, the count grows first. */
    method Call(text: seq<Byte>, deltas: seq<Delta>)
      modifies this`completion, this`tokens
      ensures completion == old(completion) + if countsUsage then 1 else 0
      ensures tokens == old(tokens) + [Token(text, completion, deltas)]
      ensures Texts(tokens) == Texts(old(tokens)) + text
    {
      completion := completion + if countsUsage then 1 else 0;
      tokens := tokens + [Token(text, completion, deltas)];
      assert tokens[..|tokens| - 1] == old(tokens);
    }

    /** The inner loop: splits the buffer into the runes to send and the tail to keep. */
    method TakeCompleteRunes() returns (completeRunes: seq<Byte>)
      modifies this`partialRune
      ensures completeRunes == Complete(old(partialRune))
      ensures partialRune == Leftover(old(partialRune))
    {
      hide DecodeRune;
      completeRunes := [];
      ghost var buffer := partialRune;
      while |partialRune| > 0
        invariant completeRunes + partialRune == buffer
        invariant Complete(buffer) == completeRunes + Complete(partialRune)
        decreases |partialRune|
      {
        var r := DecodeRune(partialRune);
        if r.cp == RUNE_ERROR {
          break;
        }
        DecodeIsEncode(partialRune);
        completeRunes := completeRunes + partialRune[..r.size];
        partialRune := partialRune[r.size..];
      }
      assert Complete(partialRune) == [];
    }

    /** Sends the completed runes as one token, and an empty token for an empty message. */
    method Forward(completeRunes: seq<Byte>, reply: Reply)
      requires Texts(tokens) == replyPrefix + response
      modifies this`completion, this`tokens, this`response
      ensures response == old(response) + completeRunes
      ensures Texts(tokens) == replyPrefix + response
      ensures completion == old(completion) + if countsUsage then |tokens| - |old(tokens)| else 0
      ensures tokens == old(tokens)
                        + (if completeRunes != [] then
                             [Token(completeRunes, old(completion) + if countsUsage then 1 else 0, reply.deltas)] else [])
                        + (if reply.message == [] then [Token([], completion, reply.deltas)] else [])
    {
      hide Texts;
      if |completeRunes| > 0 {
        Call(completeRunes, reply.deltas);
        assert replyPrefix + response + completeRunes == replyPrefix + (response + completeRunes);
        response := response + completeRunes;
      }
      if |reply.message| == 0 {
        Call([], reply.deltas);
      }
    }

    method OnReply(reply: Reply, ghost before: seq<Reply>) returns (completeRunes: seq<Byte>)
      requires After(before)
      modifies this
      ensures After(before + [reply])
      ensures response == old(response) + completeRunes
      ensures completion == reply.tokens + if countsUsage then |tokens| - |old(tokens)| else 0
      ensures tokens == old(tokens)
                        + (if completeRunes != [] then
                             [Token(completeRunes, reply.tokens + if countsUsage then 1 else 0, reply.deltas)] else [])
                        + (if reply.message == [] then [Token([], completion, reply.deltas)] else [])
    {
      hide Texts, AllDeltas, Complete, Leftover, Messages, Concat;
      ReplyAppended(before, reply);
      CompleteAppend(Concat(Messages(before)), reply.message);
      partialRune := partialRune + reply.message;
      completion := reply.tokens;
      allDeltas := allDeltas + reply.deltas;
      completeRunes := TakeCompleteRunes();
      Forward(completeRunes, reply);
    }

    /** PredictStream: the callback runs once for every reply, in order. */
    method Run(replies: seq<Reply>)
      requires After([])
      modifies this
      ensures After(replies)
      ensures WellFormed(Concat(Messages(replies))) <==> response == Concat(Messages(replies))
    {
      var i := 0;
      while i < |replies|
        invariant i <= |replies|
        invariant After(replies[..i])
      {
        var _ := OnReply(replies[i], replies[..i]);
        assert replies[..i] + [replies[i]] == replies[..i + 1];
        i := i + 1;
      }
      assert replies[..i] == replies;
      NothingHeldBackIffWellFormed(Concat(Messages(replies)));
    }
  }

  /** Two ways of cutting one byte stream give the same response and the same leftover. */
  lemma ChunkingIsInvisible(one: StreamCallback, r1: seq<Reply>, two: StreamCallback, r2: seq<Reply>)
    requires one.After(r1) && two.After(r2)
    requires Concat(Messages(r1)) == Concat(Messages(r2))
    ensures one.response == two.response && one.partialRune == two.partialRune
    ensures one.replyPrefix == two.replyPrefix ==> Texts(one.tokens) == Texts(two.tokens)
    ensures one.response + one.partialRune == Concat(Messages(r1))
  {
    var s := Concat(Messages(r1));
    assert s == Complete(s) + Leftover(s);
  }
}
