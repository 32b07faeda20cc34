/** Uploading a stream of chunks: one request when it is small, and otherwise in parts, holding
    little more than one part at a time. */
module Multipart {

  type byte = b: int | 0 <= b < 256

  const MULTIPART_THRESHOLD: nat := 8 * 1024 * 1024

  datatype Part = Part(number: nat, body: seq<byte>)

  datatype Upload = Put(body: seq<byte>) | InParts(parts: seq<Part>)

  function Joined(chunks: seq<seq<byte>>): seq<byte> {
    if chunks == [] then [] else Joined(chunks[..|chunks| - 1]) + chunks[|chunks| - 1]
  }

  function Bodies(parts: seq<Part>): seq<seq<byte>> {
    seq(|parts|, i requires 0 <= i < |parts| => parts[i].body)
  }

  /** A text of bytes cut at every threshold. */
  function Cut(s: seq<byte>): seq<seq<byte>> {
    if |s| <= MULTIPART_THRESHOLD then [s]
    else [s[..MULTIPART_THRESHOLD]] + Cut(s[MULTIPART_THRESHOLD..])
  }

  predicate Numbered(parts: seq<Part>) {
    forall i :: 0 <= i < |parts| ==> parts[i].number == i + 1
  }

  predicate Full(pieces: seq<seq<byte>>, n: nat) {
    forall i :: 0 <= i < n && i < |pieces| ==> |pieces[i]| == MULTIPART_THRESHOLD
  }

  function Longest(chunks: seq<seq<byte>>): nat {
    if chunks == [] then 0
    else
      var rest, last := Longest(chunks[..|chunks| - 1]), |chunks[|chunks| - 1]|;
      if rest < last then last else rest
  }

  lemma {:induction false} JoinedAppend(chunks: seq<seq<byte>>, last: seq<byte>)
    ensures Joined(chunks + [last]) == Joined(chunks) + last
    ensures Longest(chunks + [last]) >= Longest(chunks) && Longest(chunks + [last]) >= |last|
  {
    assert (chunks + [last])[..|chunks|] == chunks;
  }

  lemma {:induction false} LongestGrows(chunks: seq<seq<byte>>, n: nat)
    requires n <= |chunks|
    ensures Longest(chunks[..n]) <= Longest(chunks)
  {
    if n < |chunks| {
      LongestGrows(chunks[..|chunks| - 1], n);
      assert chunks[..|chunks| - 1][..n] == chunks[..n];
    } else {
      assert chunks[..n] == chunks;
    }
  }

  lemma {:induction false} JoinedPrepend(first: seq<byte>, chunks: seq<seq<byte>>)
    ensures Joined([first] + chunks) == first + Joined(chunks)
  {
    var all := [first] + chunks;
    if chunks == [] {
      assert all[..|all| - 1] == [] && Joined([]) == [] && first + [] == [] + first;
    } else {
      assert all[..|all| - 1] == [first] + chunks[..|chunks| - 1];
      JoinedPrepend(first, chunks[..|chunks| - 1]);
    }
  }

  /** Cutting loses and adds nothing; every piece but the last is exactly the threshold, and the
      last is not empty unless all of it is, nor longer. */
  lemma {:induction false} CutIsExact(s: seq<byte>)
    ensures Joined(Cut(s)) == s && Full(Cut(s), |Cut(s)| - 1)
    ensures |Cut(s)| >= 1 && |Cut(s)[|Cut(s)| - 1]| <= MULTIPART_THRESHOLD
    ensures s != [] ==> Cut(s)[|Cut(s)| - 1] != []
    decreases |s|
  {
    if |s| <= MULTIPART_THRESHOLD {
      assert [s][..0] == [] && Joined([]) + s == s;
    } else {
      var head, tail := s[..MULTIPART_THRESHOLD], s[MULTIPART_THRESHOLD..];
      CutIsExact(tail);
      JoinedPrepend(head, Cut(tail));
      assert head + tail == s;
    }
  }

  /** There is only one way to cut so. */
  lemma {:induction false} CutIsUnique(pieces: seq<seq<byte>>, last: seq<byte>)
    requires Full(pieces, |pieces|) && 0 < |last| <= MULTIPART_THRESHOLD
    ensures Cut(Joined(pieces + [last])) == pieces + [last]
  {
    if pieces == [] {
      assert [last][..0] == [] && Joined([last]) == [] + last == last && pieces + [last] == [last];
    } else {
      var rest := pieces[1..];
      assert pieces + [last] == [pieces[0]] + (rest + [last]);
      assert Full(rest, |rest|) by {
        assert forall i :: 0 <= i < |rest| ==> rest[i] == pieces[i + 1];
      }
      CutIsUnique(rest, last);
      JoinedPrepend(pieces[0], rest + [last]);
      JoinedAppend(rest, last);
      var all := Joined(pieces + [last]);
      assert all == pieces[0] + Joined(rest + [last]);
      assert all[..MULTIPART_THRESHOLD] == pieces[0] && all[MULTIPART_THRESHOLD..] == Joined(rest + [last]);
    }
  }

  lemma BodiesAppend(parts: seq<Part>, p: Part)
    ensures Bodies(parts + [p]) == Bodies(parts) + [p.body]
  {
  }

  /** Parts sent so far and bytes still pending make up what has arrived. */
  ghost predicate Sent(parts: seq<Part>, pending: seq<byte>, arrived: seq<byte>) {
    Numbered(parts) && Full(Bodies(parts), |parts|) && Joined(Bodies(parts)) + pending == arrived
  }

  /** Sends full parts while there are any. */
  method Flush(start: seq<byte>, had: seq<Part>, ghost arrived: seq<byte>) returns (pending: seq<byte>, parts: seq<Part>)
    requires Sent(had, start, arrived)
    ensures Sent(parts, pending, arrived) && |pending| < MULTIPART_THRESHOLD
    ensures |start| >= MULTIPART_THRESHOLD || had != [] ==> parts != []
  {
    pending, parts := start, had;
    while |pending| >= MULTIPART_THRESHOLD
      invariant Sent(parts, pending, arrived)
      invariant |start| >= MULTIPART_THRESHOLD || had != [] ==> parts != [] || |pending| >= MULTIPART_THRESHOLD
      decreases |pending|
    {
      var piece := pending[..MULTIPART_THRESHOLD];
      var part := Part(|parts| + 1, piece);
      BodiesAppend(parts, part);
      JoinedAppend(Bodies(parts), piece);
      assert piece + pending[MULTIPART_THRESHOLD..] == pending;
      pending := pending[MULTIPART_THRESHOLD..];
      parts := parts + [part];
    }
  }

  /** The last flush also sends what is left. */
  method FlushAll(start: seq<byte>, had: seq<Part>, ghost arrived: seq<byte>) returns (parts: seq<Part>)
    requires Sent(had, start, arrived) && (start != [] || had != [])
    ensures Numbered(parts) && Bodies(parts) == Cut(arrived)
  {
    var pending, sent := Flush(start, had, arrived);
    if pending != [] {
      var part := Part(|sent| + 1, pending);
      BodiesAppend(sent, part);
      JoinedAppend(Bodies(sent), pending);
      CutIsUnique(Bodies(sent), pending);
      return sent + [part];
    }
    var n := |sent| - 1;
    var last := sent[n].body;
    assert Bodies(sent) == Bodies(sent)[..n] + [last] && Joined(Bodies(sent)) + [] == Joined(Bodies(sent));
    CutIsUnique(Bodies(sent)[..n], last);
    return sent;
  }

  /** However the stream is chunked: one body with everything when it is no longer than the
      threshold, and otherwise the stream cut at every threshold, numbered from one. `peak` is
      the most that was ever held. */
  method Write(chunks: seq<seq<byte>>) returns (upload: Upload, ghost peak: nat)
    ensures upload.Put? <==> |Joined(chunks)| <= MULTIPART_THRESHOLD
    ensures upload.Put? ==> upload.body == Joined(chunks)
    ensures upload.InParts? ==> Numbered(upload.parts) && Bodies(upload.parts) == Cut(Joined(chunks))
    ensures peak <= MULTIPART_THRESHOLD + Longest(chunks)
  {
    var buffer: seq<byte> := [];
    var i := 0;
    peak := 0;
    assert chunks[..0] == [];
    while i < |chunks| && |buffer| <= MULTIPART_THRESHOLD
      invariant 0 <= i <= |chunks| && buffer == Joined(chunks[..i])
      invariant |buffer| > MULTIPART_THRESHOLD ==> i > 0
      invariant |buffer| <= peak <= MULTIPART_THRESHOLD + Longest(chunks)
    {
      NextChunk(chunks, i);
      buffer := buffer + chunks[i];
      peak := if peak < |buffer| then |buffer| else peak;
      i := i + 1;
    }
    if |buffer| <= MULTIPART_THRESHOLD {
      assert chunks[..i] == chunks;
      return Put(buffer), peak;
    }
    JoinedGrows(chunks, i);
    var pending, parts := buffer, [];
    assert Bodies([]) == [] && Joined([]) + buffer == buffer;
    pending, parts := Flush(pending, parts, buffer);
    while i < |chunks|
      invariant 0 <= i <= |chunks| && parts != [] && |pending| < MULTIPART_THRESHOLD
      invariant Sent(parts, pending, Joined(chunks[..i]))
      invariant peak <= MULTIPART_THRESHOLD + Longest(chunks)
    {
      NextChunk(chunks, i);
      assert Joined(Bodies(parts)) + (pending + chunks[i]) == (Joined(Bodies(parts)) + pending) + chunks[i];
      pending := pending + chunks[i];
      peak := if peak < |pending| then |pending| else peak;
      i := i + 1;
      pending, parts := Flush(pending, parts, Joined(chunks[..i]));
    }
    assert chunks[..i] == chunks;
    parts := FlushAll(pending, parts, Joined(chunks));
    return InParts(parts), peak;
  }

  lemma NextChunk(chunks: seq<seq<byte>>, i: nat)
    requires i < |chunks|
    ensures Joined(chunks[..i + 1]) == Joined(chunks[..i]) + chunks[i] && |chunks[i]| <= Longest(chunks)
  {
    assert chunks[..i + 1] == chunks[..i] + [chunks[i]];
    JoinedAppend(chunks[..i], chunks[i]);
    LongestGrows(chunks, i + 1);
  }

  lemma {:induction false} JoinedGrows(chunks: seq<seq<byte>>, n: nat)
    requires n <= |chunks|
    ensures |Joined(chunks[..n])| <= |Joined(chunks)|
    decreases |chunks| - n
  {
    if n == |chunks| {
      assert chunks[..n] == chunks;
    } else {
      NextChunk(chunks, n);
      JoinedGrows(chunks, n + 1);
    }
  }
}
