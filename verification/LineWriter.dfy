/** The writer that breaks base64 output into lines, over a destination that may
    fail, together with the text a complete run of writes leaves behind. */
module LineWriter {

  type byte = bv8

  const CR: byte := 13
  const LF: byte := 10
  const CRLF: seq<byte> := [CR, LF]
  const WIDTH: nat := 76

  // ---- the destination ----

  /** What one call of the destination does: take everything, stop with an error
      after some bytes, or take too few without an error, which an io.Writer
      promises not to do. */
  datatype Response = Accepts | Stops(count: nat) | Short(count: nat)

  /** The bytes taken so far and the responses to come; when they run out,
      every write is accepted. */
  datatype Sink = Sink(bytes: seq<byte>, script: seq<Response>)

  function Min(a: nat, b: nat): nat {
    if a < b then a else b
  }

  function Taken(s: Sink, p: seq<byte>): (n: nat)
    ensures n <= |p|
  {
    if s.script == [] || s.script[0].Accepts? then |p| else Min(s.script[0].count, |p|)
  }

  predicate Errs(s: Sink) {
    s.script != [] && s.script[0].Stops?
  }

  function Put(s: Sink, p: seq<byte>): Sink {
    Sink(s.bytes + p[..Taken(s, p)], if s.script == [] then [] else s.script[1..])
  }

  class Destination {
    var bytes: seq<byte>
    var script: seq<Response>

    function View(): Sink
      reads this
    {
      Sink(bytes, script)
    }

    method Write(p: seq<byte>) returns (count: nat, err: bool)
      modifies this
      ensures count == Taken(old(View()), p) && err == Errs(old(View()))
      ensures View() == Put(old(View()), p)
    {
      count, err := |p|, false;
      if script != [] {
        var response := script[0];
        script := script[1..];
        if !response.Accepts? {
          count, err := Min(response.count, |p|), response.Stops?;
        }
      }
      bytes := bytes + p[..count];
    }
  }

  // ---- one call of Write ----

  datatype Status = Complete | Failed | ShortWrite

  datatype Outcome = Outcome(sink: Sink, column: nat, written: nat, status: Status)

  function Attempt(width: nat, s: Sink, column: nat, p: seq<byte>): (o: Outcome)
    requires column <= width && width > 0
    ensures o.column <= width && o.written <= |p|
    decreases |p|, if column == width then 1 else 0
  {
    if p == [] then Outcome(s, column, 0, Complete)
    else
      var remaining := Min(width - column, |p|);
      var count, filled := Taken(s, p[..remaining]), Put(s, p[..remaining]);
      if Errs(s) then Outcome(filled, column + count, count, Failed)
      else if count < remaining then Outcome(filled, column + count, count, ShortWrite)
      else if column + count < width then Outcome(filled, column + count, count, Complete)
      else if Errs(filled) then Outcome(Put(filled, CRLF), width, count, Failed)
      else
        var rest := Attempt(width, Put(filled, CRLF), 0, p[count..]);
        rest.(written := count + rest.written)
  }

  /** One turn of the write loop. */
  lemma AttemptTurn(width: nat, s: Sink, column: nat, p: seq<byte>)
    requires column <= width && width > 0 && p != []
    ensures var remaining := Min(width - column, |p|);
            var count, filled := Taken(s, p[..remaining]), Put(s, p[..remaining]);
            var o := Attempt(width, s, column, p);
            && count <= remaining
            && (Errs(s) ==> o == Outcome(filled, column + count, count, Failed))
            && (!Errs(s) && count < remaining ==> o == Outcome(filled, column + count, count, ShortWrite))
            && (!Errs(s) && count == remaining && column + count < width ==>
                  count == |p| && o == Outcome(filled, column + count, count, Complete))
            && (!Errs(s) && count == remaining && column + count == width && Errs(filled) ==>
                  o == Outcome(Put(filled, CRLF), width, count, Failed))
            && (!Errs(s) && count == remaining && column + count == width && !Errs(filled) ==>
                  var rest := Attempt(width, Put(filled, CRLF), 0, p[count..]);
                  o == rest.(written := count + rest.written))
  {
    hide Put, Taken, Errs;
  }

  lemma NothingToWrite(width: nat, s: Sink, column: nat)
    requires column <= width && width > 0
    ensures Attempt(width, s, column, []) == Outcome(s, column, 0, Complete)
  {
  }

  class Writer {
    const dst: Destination
    var width: nat
    var column: nat

    predicate Valid()
      reads this
    {
      column <= width
    }

    constructor (dst: Destination)
      ensures Valid() && this.dst == dst && width == 0 && column == 0
    {
      this.dst, width, column := dst, 0, 0;
    }

    method Write(data: seq<byte>) returns (written: nat, status: Status)
      requires Valid()
      modifies this, dst
      ensures Valid() && width == if old(width) == 0 then 76 else old(width)
      ensures Outcome(dst.View(), column, written, status) == Attempt(width, old(dst.View()), old(column), data)
    {
      hide Attempt, Put, Taken, Errs;
      if width == 0 {
        width := WIDTH;
      }
      var p := data;
      written := 0;
      ghost var goal := Attempt(width, dst.View(), column, data);
      while |p| > 0
        invariant width == if old(width) == 0 then WIDTH else old(width)
        invariant column <= width && width > 0
        invariant var rest := Attempt(width, dst.View(), column, p); goal == rest.(written := written + rest.written)
        decreases |p|, if column == width then 1 else 0
      {
        var remaining := width - column;
        if remaining > |p| {
          remaining := |p|;
        }
        AttemptTurn(width, dst.View(), column, p);
        var count, err := dst.Write(p[..remaining]);
        written, column, p := written + count, column + count, p[count..];
        if err {
          return written, Failed;
        }
        if count < remaining {
          return written, ShortWrite;
        }
        if column == width {
          var _, failed := dst.Write(CRLF);
          if failed {
            return written, Failed;
          }
          column := 0;
        } else {
          NothingToWrite(width, dst.View(), column);
        }
      }
      NothingToWrite(width, dst.View(), column);
      return written, Complete;
    }
  }

  // ---- the text of a complete run ----

  /** What wrapping adds after `column` bytes of the current line. */
  function Wrap(width: nat, column: nat, p: seq<byte>): seq<byte>
    requires column <= width && width > 0
    decreases |p|, if column == width then 1 else 0
  {
    if p == [] then []
    else if column + |p| < width then p
    else
      var r := width - column;
      p[..r] + CRLF + Wrap(width, 0, p[r..])
  }

  /** Where the line stands after those bytes. */
  function Column(width: nat, column: nat, p: seq<byte>): (c: nat)
    requires column <= width && width > 0
    ensures c <= width
    decreases |p|, if column == width then 1 else 0
  {
    if p == [] then column
    else if column + |p| < width then column + |p|
    else Column(width, 0, p[width - column..])
  }

  /** No response is short without an error: the io.Writer contract. */
  ghost predicate Honest(s: Sink) {
    forall k :: 0 <= k < |s.script| ==> !s.script[k].Short?
  }

  ghost predicate NeverFails(s: Sink) {
    forall k :: 0 <= k < |s.script| ==> s.script[k].Accepts?
  }

  lemma AcceptsAll(s: Sink, p: seq<byte>)
    requires NeverFails(s)
    ensures Taken(s, p) == |p| && !Errs(s)
    ensures NeverFails(Put(s, p)) && Put(s, p).bytes == s.bytes + p
  {
    assert p[..|p|] == p;
  }

  /** A destination that accepts everything gets exactly the wrapped text, and
      the call reports every byte. */
  lemma {:induction false} CompleteWrite(width: nat, s: Sink, column: nat, p: seq<byte>)
    requires column <= width && width > 0 && NeverFails(s)
    ensures var o := Attempt(width, s, column, p);
            && o.sink.bytes == s.bytes + Wrap(width, column, p) && NeverFails(o.sink)
            && o.column == Column(width, column, p)
            && o.written == |p| && o.status == Complete
    decreases |p|, if column == width then 1 else 0
  {
    hide Put, Taken, Errs, NeverFails, Attempt;
    if p == [] {
      NothingToWrite(width, s, column);
    } else {
      var r := Min(width - column, |p|);
      AttemptTurn(width, s, column, p);
      AcceptsAll(s, p[..r]);
      var filled := Put(s, p[..r]);
      if column + r < width {
        assert p[..r] == p;
      } else {
        AcceptsAll(filled, CRLF);
        CompleteWrite(width, Put(filled, CRLF), 0, p[r..]);
        assert s.bytes + p[..r] + CRLF + Wrap(width, 0, p[r..]) == s.bytes + (p[..r] + CRLF + Wrap(width, 0, p[r..]));
      }
    }
  }

  // ---- chunking ----

  lemma WrapFullLine(width: nat, column: nat, p: seq<byte>)
    requires column < width <= column + |p|
    ensures Wrap(width, column, p) == p[..width - column] + CRLF + Wrap(width, 0, p[width - column..])
    ensures Column(width, column, p) == Column(width, 0, p[width - column..])
  {
  }

  lemma ShortText(width: nat, column: nat, p: seq<byte>)
    requires column + |p| < width
    ensures Wrap(width, column, p) == p && Column(width, column, p) == column + |p|
  {
  }

  lemma FillsLaterLine(width: nat, column: nat, p: seq<byte>, q: seq<byte>)
    requires column + |p| < width <= column + |p| + |q|
    ensures Wrap(width, column, p + q) == p + Wrap(width, column + |p|, q)
    ensures Column(width, column, p + q) == Column(width, column + |p|, q)
  {
    hide Wrap, Column;
    var r := width - column;
    WrapFullLine(width, column, p + q);
    WrapFullLine(width, column + |p|, q);
    assert (p + q)[..r] == p + q[..r - |p|] && (p + q)[r..] == q[r - |p|..];
    var rest := Wrap(width, 0, q[r - |p|..]);
    assert p + (q[..r - |p|] + CRLF + rest) == (p + q[..r - |p|]) + CRLF + rest;
  }

  lemma {:induction false} WrapAppends(width: nat, column: nat, p: seq<byte>, q: seq<byte>)
    requires column < width
    ensures Wrap(width, column, p + q) == Wrap(width, column, p) + Wrap(width, Column(width, column, p), q)
    ensures Column(width, column, p + q) == Column(width, Column(width, column, p), q)
    ensures Column(width, column, p) < width
    decreases |p|
  {
    hide Wrap, Column;
    if column + |p| >= width {
      var r := width - column;
      assert (p + q)[..r] == p[..r] && (p + q)[r..] == p[r..] + q;
      WrapFullLine(width, column, p);
      WrapFullLine(width, column, p + q);
      WrapAppends(width, 0, p[r..], q);
    } else {
      ShortText(width, column, p);
      if column + |p| + |q| >= width {
        FillsLaterLine(width, column, p, q);
      } else {
        ShortText(width, column, p + q);
        ShortText(width, column + |p|, q);
      }
    }
  }

  function Concat(chunks: seq<seq<byte>>): seq<byte> {
    if chunks == [] then [] else chunks[0] + Concat(chunks[1..])
  }

  /** A run of calls on one writer; `reports` are the byte counts returned. */
  datatype RunState = RunState(sink: Sink, column: nat, reports: seq<nat>, complete: bool)

  function Next(width: nat, s: RunState, chunk: seq<byte>): (r: RunState)
    requires s.column <= width && width > 0
    ensures r.column <= width
  {
    var o := Attempt(width, s.sink, s.column, chunk);
    RunState(o.sink, o.column, s.reports + [o.written], s.complete && o.status.Complete?)
  }

  function Run(width: nat, s: RunState, chunks: seq<seq<byte>>): (r: RunState)
    requires s.column <= width && width > 0
    ensures r.column <= width
    decreases |chunks|
  {
    if chunks == [] then s else Run(width, Next(width, s, chunks[0]), chunks[1..])
  }

  function Lengths(chunks: seq<seq<byte>>): seq<nat> {
    if chunks == [] then [] else [|chunks[0]|] + Lengths(chunks[1..])
  }

  /** One call, with more to come. */
  lemma FirstChunk(width: nat, s: RunState, p: seq<byte>, rest: seq<byte>)
    requires s.column < width && NeverFails(s.sink)
    ensures var t := Next(width, s, p);
            && NeverFails(t.sink) && t.column < width && t.reports == s.reports + [|p|] && (t.complete <==> s.complete)
            && t.sink.bytes + Wrap(width, t.column, rest) == s.sink.bytes + Wrap(width, s.column, p + rest)
            && Column(width, t.column, rest) == Column(width, s.column, p + rest)
  {
    hide Attempt, NeverFails, Wrap, Column;
    CompleteWrite(width, s.sink, s.column, p);
    WrapAppends(width, s.column, p, rest);
  }

  /** Over a destination that never fails, only the concatenation of the chunks
      matters, and every call reports the length of its chunk. */
  lemma {:induction false} ChunkingIsInvisible(width: nat, s: RunState, chunks: seq<seq<byte>>)
    requires s.column < width && NeverFails(s.sink)
    ensures var r := Run(width, s, chunks);
            && r.sink.bytes == s.sink.bytes + Wrap(width, s.column, Concat(chunks))
            && r.column == Column(width, s.column, Concat(chunks))
            && r.reports == s.reports + Lengths(chunks)
            && (r.complete <==> s.complete)
    decreases |chunks|
  {
    hide Next, NeverFails, Wrap, Column, Run, Concat, Lengths;
    NoChunks(width, s);
    if chunks != [] {
      RunFirst(width, s, chunks);
      FirstChunk(width, s, chunks[0], Concat(chunks[1..]));
      ChunkingIsInvisible(width, Next(width, s, chunks[0]), chunks[1..]);
      assert s.reports + [|chunks[0]|] + Lengths(chunks[1..]) == s.reports + ([|chunks[0]|] + Lengths(chunks[1..]));
    }
  }

  lemma RunFirst(width: nat, s: RunState, chunks: seq<seq<byte>>)
    requires s.column <= width && width > 0 && chunks != []
    ensures Run(width, s, chunks) == Run(width, Next(width, s, chunks[0]), chunks[1..])
    ensures Concat(chunks) == chunks[0] + Concat(chunks[1..])
    ensures Lengths(chunks) == [|chunks[0]|] + Lengths(chunks[1..])
  {
    hide Next;
  }

  lemma NoChunks(width: nat, s: RunState)
    requires s.column < width
    ensures Run(width, s, []) == s && Concat([]) == [] && Lengths([]) == []
    ensures Wrap(width, s.column, []) == [] && Column(width, s.column, []) == s.column
  {
  }

  // ---- lines ----

  /** Full lines of exactly `width` bytes, each followed by CRLF, then a shorter
      rest without a line break of its own. */
  predicate Lines(width: nat, text: seq<byte>) {
    if |text| < width + 2 then |text| < width
    else text[width..width + 2] == [13, 10] && Lines(width, text[width + 2..])
  }

  /** Remove the two bytes after each full line. */
  function Unwrap(width: nat, text: seq<byte>): seq<byte> {
    if |text| < width + 2 then text else text[..width] + Unwrap(width, text[width + 2..])
  }

  lemma {:induction false} WrapRoundTrip(width: nat, p: seq<byte>)
    requires width > 0
    ensures Lines(width, Wrap(width, 0, p))
    ensures Unwrap(width, Wrap(width, 0, p)) == p
    decreases |p|
  {
    if |p| >= width {
      var text, rest := Wrap(width, 0, p), Wrap(width, 0, p[width..]);
      assert text == p[..width] + CRLF + rest;
      assert text[..width] == p[..width] && text[width..width + 2] == CRLF && text[width + 2..] == rest;
      WrapRoundTrip(width, p[width..]);
      assert p[..width] + p[width..] == p;
    }
  }

  /** What a base64 decoder reads: the text without its CR and LF bytes. */
  function WithoutBreaks(text: seq<byte>): seq<byte> {
    if text == [] then []
    else (if text[0] == CR || text[0] == LF then [] else [text[0]]) + WithoutBreaks(text[1..])
  }

  lemma {:induction false} WithoutBreaksAppends(a: seq<byte>, b: seq<byte>)
    ensures WithoutBreaks(a + b) == WithoutBreaks(a) + WithoutBreaks(b)
  {
    if a == [] {
      assert a + b == b;
    } else {
      assert (a + b)[1..] == a[1..] + b;
      WithoutBreaksAppends(a[1..], b);
    }
  }

  lemma {:induction false} NothingToRemove(p: seq<byte>)
    requires CR !in p && LF !in p
    ensures WithoutBreaks(p) == p
  {
    if p != [] {
      assert p[0] in p;
      NothingToRemove(p[1..]);
    }
  }

  /** An alphabet without CR and LF comes back when those bytes are dropped,
      from whatever column the writer started. */
  lemma {:induction false} DecoderSeesInput(width: nat, column: nat, p: seq<byte>)
    requires column < width && CR !in p && LF !in p
    ensures WithoutBreaks(Wrap(width, column, p)) == p
    decreases |p|
  {
    hide Wrap, WithoutBreaks;
    if column + |p| < width {
      ShortText(width, column, p);
      NothingToRemove(p);
    } else {
      var r := width - column;
      WrapFullLine(width, column, p);
      DecoderSeesInput(width, 0, p[r..]);
      NothingToRemove(p[..r]);
      BreakIsDropped(p[..r], Wrap(width, 0, p[r..]));
      assert p[..r] + p[r..] == p;
    }
  }

  lemma BreakIsDropped(line: seq<byte>, rest: seq<byte>)
    ensures WithoutBreaks(line + CRLF + rest) == WithoutBreaks(line) + WithoutBreaks(rest)
  {
    WithoutBreaksAppends(line + CRLF, rest);
    WithoutBreaksAppends(line, CRLF);
    assert CRLF[1..] == [LF] && [LF][1..] == [] && WithoutBreaks([LF]) == [];
    assert WithoutBreaks(line) + [] == WithoutBreaks(line);
  }

  // ---- interruptions ----

  /** `Wrap`, with the break that a full line still owes. */
  function Pending(width: nat, column: nat, p: seq<byte>): seq<byte>
    requires column <= width && width > 0
  {
    if column == width then CRLF + Wrap(width, 0, p) else Wrap(width, column, p)
  }

  /** The destination got all but `text` minus what is still pending, and then
      `cut` bytes of a line break that failed. */
  ghost predicate StoppedAt(width: nat, o: Outcome, text: seq<byte>, rest: seq<byte>, cut: nat)
    requires o.column <= width && width > 0
  {
    && cut <= 2 && cut <= |o.sink.bytes|
    && var kept := o.sink.bytes[..|o.sink.bytes| - cut];
    && o.sink.bytes == kept + CRLF[..cut]
    && kept + Pending(width, o.column, rest) == text
    && (cut > 0 ==> o.status == Failed && o.column == width)
  }

  lemma HonestPut(s: Sink, p: seq<byte>)
    requires Honest(s)
    ensures Honest(Put(s, p)) && Put(s, p).bytes == s.bytes + p[..Taken(s, p)]
    ensures !Errs(s) ==> Taken(s, p) == |p|
  {
  }

  /** Taking bytes that fit the line moves them from pending to written. */
  lemma PendingAfter(width: nat, column: nat, p: seq<byte>, count: nat)
    requires column <= width && width > 0 && count <= |p| && column + count <= width
    ensures Pending(width, column, p) == p[..count] + Pending(width, column + count, p[count..])
  {
  }

  lemma StopsInLine(width: nat, s: Sink, column: nat, p: seq<byte>, sink: Sink, count: nat, status: Status)
    requires column <= width && width > 0 && count <= |p| && column + count <= width
    requires sink.bytes == s.bytes + p[..count]
    ensures StoppedAt(width, Outcome(sink, column + count, count, status), s.bytes + Pending(width, column, p),
            p[count..], 0)
  {
    hide Pending;
    PendingAfter(width, column, p, count);
    var now := Pending(width, column + count, p[count..]);
    assert s.bytes + (p[..count] + now) == sink.bytes + now;
    assert sink.bytes[..|sink.bytes|] == sink.bytes && sink.bytes + CRLF[..0] == sink.bytes;
  }

  lemma StopsInBreak(width: nat, bytes: seq<byte>, rest: seq<byte>, sink: Sink, written: nat, cut: nat)
    requires width > 0 && cut <= 2 && sink.bytes == bytes + CRLF[..cut]
    ensures StoppedAt(width, Outcome(sink, width, written, Failed), bytes + Pending(width, width, rest), rest, cut)
  {
    assert sink.bytes[..|sink.bytes| - cut] == bytes;
  }

  /** At any failure of an honest destination the reported count and the column
      describe what it holds, up to the bytes of one broken line break. */
  lemma {:induction false} Interrupted(width: nat, s: Sink, column: nat, p: seq<byte>) returns (cut: nat)
    requires column <= width && width > 0 && Honest(s)
    ensures var o := Attempt(width, s, column, p);
            && StoppedAt(width, o, s.bytes + Pending(width, column, p), p[o.written..], cut)
            && o.status != ShortWrite
    decreases |p|, if column == width then 1 else 0
  {
    hide Put, Taken, Errs, Honest, Attempt, StoppedAt;
    cut := 0;
    if p == [] {
      NothingToWrite(width, s, column);
      StopsInLine(width, s, column, p, s, 0, Complete);
    } else {
      var r := Min(width - column, |p|);
      var count, filled := Taken(s, p[..r]), Put(s, p[..r]);
      AttemptTurn(width, s, column, p);
      HonestPut(s, p[..r]);
      assert p[..r][..count] == p[..count];
      StopsInLine(width, s, column, p, filled, count, Attempt(width, s, column, p).status);
      if !Errs(s) && column + count == width {
        cut := InterruptedAfterLine(width, s, column, p, count);
      }
    }
  }

  lemma InterruptedAfterLine(width: nat, s: Sink, column: nat, p: seq<byte>, count: nat) returns (cut: nat)
    requires column <= width && width > 0 && Honest(s) && p != [] && !Errs(s)
    requires count == Min(width - column, |p|) == width - column
    ensures var o := Attempt(width, s, column, p);
            && StoppedAt(width, o, s.bytes + Pending(width, column, p), p[o.written..], cut)
            && o.status != ShortWrite
    decreases |p|, if column == width then 1 else 0, 0
  {
    hide Put, Taken, Errs, Honest, Attempt, StoppedAt, Wrap;
    var filled := Put(s, p[..count]);
    AttemptTurn(width, s, column, p);
    HonestPut(s, p[..count]);
    assert p[..count][..count] == p[..count];
    HonestPut(filled, CRLF);
    PendingAfter(width, column, p, count);
    var text := s.bytes + Pending(width, column, p);
    assert text == filled.bytes + Pending(width, width, p[count..]);
    if Errs(filled) {
      cut := Taken(filled, CRLF);
      StopsInBreak(width, filled.bytes, p[count..], Put(filled, CRLF), count, cut);
    } else {
      var broken := Put(filled, CRLF);
      cut := Interrupted(width, broken, 0, p[count..]);
      assert CRLF[..2] == CRLF && broken.bytes + Pending(width, 0, p[count..]) == text;
      var rest := Attempt(width, broken, 0, p[count..]);
      assert p[count..][rest.written..] == p[count + rest.written..];
      Recounted(width, rest, count, text, p[count + rest.written..], cut);
    }
  }

  lemma Recounted(width: nat, o: Outcome, count: nat, text: seq<byte>, rest: seq<byte>, cut: nat)
    requires o.column <= width && width > 0 && StoppedAt(width, o, text, rest, cut)
    ensures StoppedAt(width, o.(written := count + o.written), text, rest, cut)
  {
  }

  /** A retry of the unreported bytes, over a destination that has recovered,
      completes the text exactly when the failure cost no break: it took nothing
      of one that is written again, or all of the one that ended the data. */
  lemma RetryCompletes(width: nat, s: Sink, column: nat, p: seq<byte>, cut: nat)
    requires column < width && Honest(s) && p != []
    requires var o := Attempt(width, s, column, p);
             o.status == Failed && StoppedAt(width, o, s.bytes + Pending(width, column, p), p[o.written..], cut)
    ensures var o := Attempt(width, s, column, p);
            var rest := p[o.written..];
            var retried := Attempt(width, Sink(o.sink.bytes, []), o.column, rest);
            retried.sink.bytes == s.bytes + Wrap(width, column, p)
            <==> cut == if rest == [] && o.column == width then 2 else 0
  {
    var o := Attempt(width, s, column, p);
    var rest := p[o.written..];
    CompleteWrite(width, Sink(o.sink.bytes, []), o.column, rest);
    RetriedText(width, o, s.bytes + Wrap(width, column, p), rest, cut);
  }

  lemma RetriedText(width: nat, o: Outcome, text: seq<byte>, rest: seq<byte>, cut: nat)
    requires o.column <= width && width > 0 && StoppedAt(width, o, text, rest, cut)
    ensures o.sink.bytes + Wrap(width, o.column, rest) == text <==>
            cut == if rest == [] && o.column == width then 2 else 0
  {
    var kept := o.sink.bytes[..|o.sink.bytes| - cut];
    if o.column < width {
      assert o.sink.bytes == kept;
    } else if rest == [] {
      assert text == kept + CRLF;
    } else {
      assert |Wrap(width, width, rest)| == 2 + |Wrap(width, 0, rest)|;
      assert CRLF[..0] == [] && rest[..0] == [] && rest[0..] == rest;
    }
  }

  // ---- two retries that fail ----

  const FULL_LINE: seq<byte> := seq(WIDTH, i => 65)

  lemma LineThenStop(p: seq<byte>, taken: nat)
    requires |p| >= WIDTH && taken <= 2
    ensures Attempt(WIDTH, Sink([], [Accepts, Stops(taken)]), 0, p)
            == Outcome(Sink(p[..WIDTH] + CRLF[..taken], []), WIDTH, WIDTH, Failed)
  {
    var s := Sink([], [Accepts, Stops(taken)]);
    AttemptTurn(WIDTH, s, 0, p);
    assert Put(s, p[..WIDTH]) == Sink(p[..WIDTH], [Stops(taken)]) by {
      assert [] + p[..WIDTH][..WIDTH] == p[..WIDTH];
      assert s.script[1..] == [Stops(taken)];
    }
    assert [Stops(taken)][1..] == [];
  }

  /** A line of 76 bytes whose break is refused: a retry has nothing to write, so
      the break never comes. */
  lemma LostBreak()
    ensures var o := Attempt(WIDTH, Sink([], [Accepts, Stops(0)]), 0, FULL_LINE);
            && o.status == Failed && o.written == |FULL_LINE|
            && Attempt(WIDTH, o.sink, o.column, FULL_LINE[o.written..]).sink.bytes == FULL_LINE
            && Wrap(WIDTH, 0, FULL_LINE) == FULL_LINE + CRLF
  {
    LineThenStop(FULL_LINE, 0);
    assert FULL_LINE[..WIDTH] + CRLF[..0] == FULL_LINE && FULL_LINE[WIDTH..] == [];
    assert FULL_LINE + CRLF + [] == FULL_LINE + CRLF;
  }

  lemma RetryWritesBreak(line: seq<byte>)
    ensures Attempt(WIDTH, Sink(line + [CR], []), WIDTH, [65]).sink.bytes == line + [CR, CR, LF, 65]
  {
    hide Attempt, Wrap;
    CompleteWrite(WIDTH, Sink(line + [CR], []), WIDTH, [65]);
    BreakFirst([65]);
    assert line + [CR] + [CR, LF, 65] == line + [CR, CR, LF, 65];
  }

  lemma BreakFirst(p: seq<byte>)
    requires 0 < |p| < WIDTH
    ensures Wrap(WIDTH, WIDTH, p) == CRLF + p
  {
    ShortText(WIDTH, 0, p);
    assert p[..0] == [] && p[0..] == p;
  }

  lemma OneOver(line: seq<byte>)
    requires |line| == WIDTH
    ensures Wrap(WIDTH, 0, line + [65]) == line + [CR, LF, 65]
  {
    hide Wrap;
    WrapFullLine(WIDTH, 0, line + [65]);
    ShortText(WIDTH, 0, [65]);
    assert (line + [65])[..WIDTH] == line && (line + [65])[WIDTH..] == [65];
    assert line + CRLF + [65] == line + [CR, LF, 65];
  }

  /** A longer text whose first break is cut after its CR: the retry writes the
      whole break again. */
  lemma DoubledBreak()
    ensures var p := FULL_LINE + [65];
            var o := Attempt(WIDTH, Sink([], [Accepts, Stops(1)]), 0, p);
            && o.status == Failed && o.written == WIDTH
            && Attempt(WIDTH, o.sink, o.column, p[o.written..]).sink.bytes == FULL_LINE + [CR, CR, LF, 65]
            && Wrap(WIDTH, 0, p) == FULL_LINE + [CR, LF, 65]
  {
    hide Attempt, Wrap;
    var p := FULL_LINE + [65];
    LineThenStop(p, 1);
    assert p[..WIDTH] == FULL_LINE && p[WIDTH..] == [65] && CRLF[..1] == [CR];
    RetryWritesBreak(FULL_LINE);
    OneOver(FULL_LINE);
  }
}
