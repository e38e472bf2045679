/**
 Capturing a process's output up to a byte limit, and the bounded text reported for it.
 */
module BoundedStream {
  import opened Sequences
  import opened Utf8

  /** One read of the pipe: some bytes (none at the end of the stream), or an operating-system error. */
  datatype Read = Data(bytes: seq<Byte>) | Failed

  /** The bytes a reader is offered: everything before the end of the stream or the first error. */
  function Delivered(chunks: seq<Read>): seq<Byte> {
    if chunks == [] || chunks[0].Failed? || chunks[0].bytes == [] then []
    else chunks[0].bytes + Delivered(chunks[1..])
  }

  predicate Ends(read: Read) {
    read.Failed? || read.bytes == []
  }

  /** The bytes of the reads, put together in order. */
  function Joined(pieces: seq<Read>): seq<Byte>
    requires forall read :: read in pieces ==> !Ends(read)
  {
    if pieces == [] then []
    else
      var k := |pieces| - 1;
      assert pieces[k] in pieces && !Ends(pieces[k]);
      Joined(pieces[..k]) + pieces[k].bytes
  }

  /** Delivered are all bytes of the reads before the first that ends the stream, in order, and nothing after it. */
  lemma {:induction false} DeliveredMeaning(chunks: seq<Read>) returns (n: nat)
    ensures n <= |chunks| && (n < |chunks| ==> Ends(chunks[n]))
    ensures (forall i :: 0 <= i < n ==> !Ends(chunks[i])) && Delivered(chunks) == Joined(chunks[..n])
    decreases |chunks|
  {
    if chunks == [] || Ends(chunks[0]) {
      n := 0;
    } else {
      var rest := DeliveredMeaning(chunks[1..]);
      n := rest + 1;
      forall i | 0 <= i < n ensures !Ends(chunks[i]) {
        if i > 0 { assert chunks[i] == chunks[1..][i - 1]; }
      }
      assert chunks[..n] == [chunks[0]] + chunks[1..][..rest];
      JoinedCons(chunks[0], chunks[1..][..rest]);
    }
  }

  lemma {:induction false} JoinedCons(first: Read, pieces: seq<Read>)
    requires !Ends(first) && forall read :: read in pieces ==> !Ends(read)
    ensures Joined([first] + pieces) == first.bytes + Joined(pieces)
    decreases |pieces|
  {
    var k := |pieces|;
    if k == 0 {
      assert [first] + pieces == [first];
    } else {
      assert pieces[k - 1] in pieces && !Ends(pieces[k - 1]);
      JoinedCons(first, pieces[..k - 1]);
      assert ([first] + pieces)[..k] == [first] + pieces[..k - 1];
      assert first.bytes + (Joined(pieces[..k - 1]) + pieces[k - 1].bytes) == first.bytes + Joined(pieces[..k - 1]) + pieces[k - 1].bytes;
    }
  }

  function Prefix(s: seq<Byte>, n: nat): seq<Byte> {
    if |s| <= n then s else s[..n]
  }

  /** The event that asks for the process to be stopped; both of its streams share it. */
  class StopEvent {
    var isSet: bool

    constructor ()
      ensures !isSet
    {
      isSet := false;
    }
  }

  lemma PrefixStep(buffer: seq<Byte>, chunk: seq<Byte>, later: seq<Byte>, max: nat)
    requires |buffer| <= max
    ensures var room := max + 1 - |buffer|;
      var next := buffer + Prefix(chunk, room);
      && (|next| > max ==> next == Prefix(buffer + (chunk + later), max + 1) && |buffer + (chunk + later)| > max)
      && (|next| <= max ==> next == buffer + chunk && next + later == buffer + (chunk + later))
  {
    var room := max + 1 - |buffer|;
    assert buffer + chunk + later == buffer + (chunk + later);
    if |chunk| >= room {
      assert (buffer + (chunk + later))[..max + 1] == buffer + chunk[..room];
    }
  }

  class BoundedProcessStream {
    const maxBytes: nat
    const stopProcess: StopEvent
    var buffer: seq<Byte>
    var done: bool

    constructor (maxBytes: nat, stopProcess: StopEvent)
      ensures this.maxBytes == maxBytes && this.stopProcess == stopProcess && buffer == [] && !done
    {
      this.maxBytes, this.stopProcess := maxBytes, stopProcess;
      buffer, done := [], false;
    }

    /**
     However the stream is cut into chunks, the buffer keeps the first `maxBytes + 1` bytes
     and the process is asked to stop exactly when there are more than `maxBytes`.
     */
    method ReadFrom(chunks: seq<Read>)
      requires |buffer| <= maxBytes
      modifies this, stopProcess
      ensures buffer == Prefix(old(buffer) + Delivered(chunks), maxBytes + 1)
      ensures stopProcess.isSet == (old(stopProcess.isSet) || |old(buffer) + Delivered(chunks)| > maxBytes)
      ensures done
    {
      var i := 0;
      ghost var all := buffer + Delivered(chunks);
      assert chunks[0..] == chunks;
      while i < |chunks|
        invariant 0 <= i <= |chunks|
        invariant |buffer| <= maxBytes && buffer + Delivered(chunks[i..]) == all
        invariant stopProcess.isSet == old(stopProcess.isSet)
      {
        if chunks[i].Failed? || chunks[i].bytes == [] { break; }
        var chunk := chunks[i].bytes;
        ghost var later := Delivered(chunks[i + 1..]);
        assert chunks[i..][1..] == chunks[i + 1..];
        PrefixStep(buffer, chunk, later, maxBytes);
        var remaining := maxBytes + 1 - |buffer|;
        if remaining > 0 {
          buffer := buffer + if |chunk| <= remaining then chunk else chunk[..remaining];
        }
        if |buffer| > maxBytes {
          stopProcess.isSet := true;
          done := true;
          return;
        }
        i := i + 1;
      }
      assert Delivered(chunks[i..]) == [];
      done := true;
    }

    function Text(): string
      reads this
    {
      DecodeReplacing(buffer)
    }
  }

  // ---------------------------------------------------------------- the reported result

  datatype StreamResult = StreamResult(text: string, tooLarge: bool, bytes: nat)

  /** One stream's part of the result; `redact` stands for the text redaction. */
  function BuildResult(captured: string, redact: string -> string, max: nat): StreamResult {
    StreamResult(BoundText(redact(captured), max), |Encode(captured)| > max, |Encode(captured)|)
  }

  /** What is captured of a stream. */
  function Captured(stream: seq<Byte>, max: nat): string {
    DecodeReplacing(Prefix(stream, max + 1))
  }

  /** A stream longer than the limit is always reported as too large. */
  lemma OverlongIsFlagged(stream: seq<Byte>, redact: string -> string, max: nat)
    requires |stream| > max
    ensures BuildResult(Captured(stream, max), redact, max).tooLarge
  {
    ReencodedLength(Prefix(stream, max + 1));
  }

  /** It is reported exactly when its length, with every malformed part counted as three bytes, exceeds the limit. */
  lemma FlaggedIff(stream: seq<Byte>, redact: string -> string, max: nat)
    ensures BuildResult(Captured(stream, max), redact, max).tooLarge <==> |stream| + Excess(stream) > max
  {
    ReencodedLength(Prefix(stream, max + 1));
  }

  lemma {:induction false} WellFormedHasNoExcess(s: seq<Byte>)
    requires WellFormed(s)
    ensures Excess(s) == 0
    decreases |s|
  {
    if s == [] {
    } else {
      WellFormedHasNoExcess(s[Next(s).length..]);
    }
  }

  /** For a well-formed stream the report is exact, and a stream within the limit is captured whole. */
  lemma WellFormedIsExact(stream: seq<Byte>, redact: string -> string, max: nat)
    requires WellFormed(stream)
    ensures BuildResult(Captured(stream, max), redact, max).tooLarge <==> |stream| > max
    ensures |stream| <= max ==>
      Encode(Captured(stream, max)) == stream && BuildResult(Captured(stream, max), redact, max).bytes == |stream|
  {
    WellFormedHasNoExcess(stream);
    FlaggedIff(stream, redact, max);
    ReencodedIff(stream);
  }

  lemma {:induction false} BadBytesExcess(n: nat)
    ensures Excess(Repeat(0xFF as Byte, n)) == 2 * n
    decreases n
  {
    if n == 0 {
    } else {
      var s := Repeat(0xFF as Byte, n);
      assert Next(s) == Bad(1);
      assert s[1..] == Repeat(0xFF as Byte, n - 1);
      BadBytesExcess(n - 1);
    }
  }

  /** Some stream within the limit is reported as too large, for every limit but zero. */
  lemma ShortStreamCanBeFlagged(redact: string -> string, max: nat)
    ensures (exists s: seq<Byte> :: |s| <= max && BuildResult(Captured(s, max), redact, max).tooLarge) <==> max > 0
  {
    if max > 0 {
      var s := Repeat(0xFF as Byte, max);
      BadBytesExcess(max);
      FlaggedIff(s, redact, max);
    } else {
      forall s: seq<Byte> | |s| <= max ensures !BuildResult(Captured(s, max), redact, max).tooLarge { FlaggedIff(s, redact, max); }
    }
  }

  /** The reported text is the longest prefix, in whole characters, of the redacted text that fits in the limit. */
  lemma ReportIsLongestFit(stream: seq<Byte>, redact: string -> string, max: nat) returns (k: nat)
    ensures var redacted := redact(Captured(stream, max));
      && LongestFit(redacted, max, k)
      && BuildResult(Captured(stream, max), redact, max).text == redacted[..k]
      && |Encode(BuildResult(Captured(stream, max), redact, max).text)| <= max
  {
    k := BoundTextIsLongestFit(redact(Captured(stream, max)), max);
  }

  /** A reader over a whole stream, in any chunks: what is reported depends only on the bytes delivered. */
  method Capture(chunks: seq<Read>, redact: string -> string, max: nat) returns (r: StreamResult, stopped: bool)
    ensures r == BuildResult(Captured(Delivered(chunks), max), redact, max)
    ensures stopped <==> |Delivered(chunks)| > max
    ensures stopped ==> r.tooLarge
  {
    var stop := new StopEvent();
    var stream := new BoundedProcessStream(max, stop);
    stream.ReadFrom(chunks);
    assert [] + Delivered(chunks) == Delivered(chunks);
    r := BuildResult(stream.Text(), redact, max);
    stopped := stop.isSet;
    if stopped { OverlongIsFlagged(Delivered(chunks), redact, max); }
  }
}
