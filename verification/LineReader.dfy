/** The incremental NDJSON line reader: one 16384-byte buffer, filled from a socket and emptied a
    line at a time. The result of the read system call is a parameter. */
module LineReader {

  type byte = b: int | 0 <= b < 256

  const CAPACITY: nat := 16384
  const NEWLINE: byte := 10

  // ---- lines of a byte stream -------------------------------------------------------

  /** The stream of these lines, each ended by a newline, which is 10, and of the unfinished line
      `tail`. */
  ghost function Joined(lines: seq<seq<byte>>, tail: seq<byte>): seq<byte> {
    if lines == [] then tail else lines[0] + ([10] + Joined(lines[1..], tail))
  }

  ghost predicate NoNewlines(lines: seq<seq<byte>>) {
    forall i :: 0 <= i < |lines| ==> 10 !in lines[i]
  }

  /** `lines` are the complete lines of `s` in order, and `tail` is what follows the last one. */
  ghost predicate Splits(s: seq<byte>, lines: seq<seq<byte>>, tail: seq<byte>) {
    s == Joined(lines, tail) && NoNewlines(lines) && 10 !in tail
  }

  lemma {:induction false} JoinedAppends(lines: seq<seq<byte>>, more: seq<seq<byte>>, tail: seq<byte>)
    ensures Joined(lines + more, tail) == Joined(lines, Joined(more, tail))
  {
    if lines == [] {
      assert [] + more == more;
    } else {
      JoinedAppends(lines[1..], more, tail);
      assert (lines + more)[1..] == lines[1..] + more;
    }
  }

  lemma {:induction false} JoinedExtends(lines: seq<seq<byte>>, tail: seq<byte>, b: seq<byte>)
    ensures Joined(lines, tail) + b == Joined(lines, tail + b)
  {
    if lines != [] {
      JoinedExtends(lines[1..], tail, b);
      var first, rest := lines[0], Joined(lines[1..], tail);
      assert first + ([NEWLINE] + rest) + b == first + ([NEWLINE] + (rest + b));
    }
  }

  /** A stream that arrives in two parts has the lines of the first, then those of its unfinished
      line completed by the second. */
  lemma SplitsAppend(a: seq<byte>, b: seq<byte>, lines: seq<seq<byte>>, tail: seq<byte>,
                     more: seq<seq<byte>>, tail': seq<byte>)
    requires Splits(a, lines, tail) && Splits(tail + b, more, tail')
    ensures Splits(a + b, lines + more, tail')
  {
    JoinedExtends(lines, tail, b);
    JoinedAppends(lines, more, tail');
  }

  lemma FirstNewlineIsUnique(a: seq<byte>, x: seq<byte>, b: seq<byte>, y: seq<byte>)
    requires NEWLINE !in a && NEWLINE !in b && a + ([NEWLINE] + x) == b + ([NEWLINE] + y)
    ensures a == b && x == y
  {
    var s, t := a + ([NEWLINE] + x), b + ([NEWLINE] + y);
    assert s[|a|] == NEWLINE && t[|b|] == NEWLINE;
    assert (forall i :: 0 <= i < |a| ==> s[i] == a[i]) && (forall i :: 0 <= i < |b| ==> t[i] == b[i]);
    assert s[..|a|] == a && t[..|a|] == b && s[|a| + 1..] == x && t[|a| + 1..] == y;
  }

  lemma {:induction false} JoinedHasNewline(lines: seq<seq<byte>>, tail: seq<byte>)
    requires lines != []
    ensures NEWLINE in Joined(lines, tail)
  {
    assert Joined(lines, tail)[|lines[0]|] == NEWLINE;
  }

  /** A stream splits in one way only, so however it is cut into reads, readers that have taken
      all of it have handed out the same lines and hold the same remainder. */
  lemma {:induction false} SplitIsUnique(s: seq<byte>, lines: seq<seq<byte>>, tail: seq<byte>,
                                         lines': seq<seq<byte>>, tail': seq<byte>)
    requires Splits(s, lines, tail) && Splits(s, lines', tail')
    ensures lines == lines' && tail == tail'
    decreases |lines|
  {
    if lines == [] || lines' == [] {
      if lines != [] {
        JoinedHasNewline(lines, tail);
      }
      if lines' != [] {
        JoinedHasNewline(lines', tail');
      }
    } else {
      var rest := Joined(lines[1..], tail);
      FirstNewlineIsUnique(lines[0], rest, lines'[0], Joined(lines'[1..], tail'));
      SplitIsUnique(rest, lines[1..], tail, lines'[1..], tail');
      assert lines == [lines[0]] + lines[1..] && lines' == [lines'[0]] + lines'[1..];
    }
  }

  // ---- the reader -------------------------------------------------------------------

  class Reader {
    const buf: array<byte>
    var len: nat

    ghost predicate Valid()
      reads this
    {
      buf.Length == CAPACITY && len <= CAPACITY
    }

    ghost function Buffered(): seq<byte>
      reads this, buf
      requires Valid()
    {
      buf[..len]
    }

    /** ipc_reader_init. */
    constructor ()
      ensures Valid() && Buffered() == [] && fresh(buf)
    {
      buf := new byte[CAPACITY];
      len := 0;
    }

    /** ipc_reader_fill: `arrived` is what read returns, at most the space that is left and empty
        on end of file or error. Fails without reading when the buffer is full. */
    method Fill(arrived: seq<byte>) returns (ok: bool)
      requires Valid()
      requires len < CAPACITY ==> |arrived| <= CAPACITY - len
      modifies this, buf
      ensures Valid()
      ensures ok == (|old(Buffered())| < 16384 && arrived != [])
      ensures Buffered() == old(Buffered()) + (if ok then arrived else [])
    {
      if len >= CAPACITY {
        return false;
      }
      var n := |arrived|;
      if n <= 0 {
        return false;
      }
      forall i | 0 <= i < n {
        buf[len + i] := arrived[i];
      }
      len := len + n;
      ok := true;
    }

    /** memchr for a newline in the buffered bytes: its index, or `len`. */
    method FindNewline() returns (k: nat)
      requires Valid()
      ensures k <= len && NEWLINE !in buf[..k]
      ensures k < len ==> buf[k] == NEWLINE
    {
      k := 0;
      while k < len && buf[k] != NEWLINE
        invariant k <= len && NEWLINE !in buf[..k]
      {
        assert buf[..k + 1] == buf[..k] + [buf[k]];
        k := k + 1;
      }
    }

    /** ipc_reader_take_line: copy the first line, cut to the output's size less one, and a
        terminator, and move the rest of the buffer to the front. The number of bytes copied is
        a result of the model; the source leaves it to the terminator. */
    method TakeLine(out: array<byte>) returns (got: bool, copied: nat, ghost line: seq<byte>)
      requires Valid() && out.Length >= 1 && out != buf
      modifies this, buf, out
      ensures Valid() && copied < out.Length
      ensures !got ==> 10 !in Buffered() && Buffered() == old(Buffered()) && out[..] == old(out[..])
      ensures got ==>
        && 10 !in line && old(Buffered()) == line + ([10] + Buffered())
        && copied == (if |line| < out.Length - 1 then |line| else out.Length - 1)
        && out[..copied] == line[..copied] && out[copied] == 0
    {
      var k := FindNewline();
      line := buf[..k];
      if k == len {
        return false, 0, line;
      }
      copied := if k < out.Length - 1 then k else out.Length - 1;
      forall i | 0 <= i < copied {
        out[i] := buf[i];
      }
      out[copied] := 0;
      var consumed := k + 1;
      forall i | 0 <= i < len - consumed {
        buf[i] := buf[consumed + i];
      }
      len := len - consumed;
      got := true;
    }

    /** The daemon's inner loop, with its 16384-byte line buffer: take and handle every complete
        line. None is cut. */
    method Drain() returns (lines: seq<seq<byte>>)
      requires Valid()
      modifies this, buf
      ensures Valid() && Splits(old(Buffered()), lines, Buffered())
    {
      ghost var all := Buffered();
      var out := new byte[CAPACITY];
      lines := [];
      var got := true;
      while got
        invariant Valid() && out != buf && fresh(out) && out.Length == CAPACITY
        invariant all == Joined(lines, Buffered()) && NoNewlines(lines)
        invariant !got ==> NEWLINE !in Buffered()
        decreases got, len
      {
        var copied;
        ghost var line: seq<byte>;
        got, copied, line := TakeLine(out);
        if got {
          assert copied == |line| && out[..copied] == line;
          JoinedAppends(lines, [line], Buffered());
          assert Joined([line], Buffered()) == line + ([NEWLINE] + Buffered()) by {
            assert [line][1..] == [];
          }
          lines := lines + [out[..copied]];
        }
      }
    }

    /** One wake-up of the daemon: a read, then every line it completes. */
    method Receive(chunk: seq<byte>) returns (ok: bool, lines: seq<seq<byte>>)
      requires Valid()
      requires len < CAPACITY ==> |chunk| <= CAPACITY - len
      modifies this, buf
      ensures Valid()
      ensures ok == (|old(Buffered())| < 16384 && chunk != [])
      ensures ok ==> Splits(old(Buffered()) + chunk, lines, Buffered())
      ensures !ok ==> lines == [] && Buffered() == old(Buffered())
    {
      ok := Fill(chunk);
      lines := [];
      if ok {
        lines := Drain();
      }
    }

    /** The daemon's outer loop over a stream. The `i`-th read offers `sizes[i]` bytes and returns
        those that fit into the buffer; `done` bytes are read in all. The loop stops before the
        sizes run out only at the end of the stream or with the buffer full of one unfinished
        line. */
    method Serve(stream: seq<byte>, sizes: seq<nat>) returns (lines: seq<seq<byte>>, count: nat, done: nat)
      requires Valid() && Buffered() == []
      requires forall i :: 0 <= i < |sizes| ==> sizes[i] > 0
      modifies this, buf
      ensures Valid() && done <= |stream| && count <= |sizes|
      ensures Splits(stream[..done], lines, Buffered())
      ensures count < |sizes| ==> done == |stream| || (|Buffered()| == 16384 && 10 !in Buffered())
    {
      lines, count, done := [], 0, 0;
      while count < |sizes|
        invariant Valid() && done <= |stream| && count <= |sizes|
        invariant Splits(stream[..done], lines, Buffered())
      {
        var free := CAPACITY - len;
        var n := if sizes[count] < free then sizes[count] else free;
        if |stream| - done < n {
          n := |stream| - done;
        }
        ghost var before := Buffered();
        var chunk := stream[done..done + n];
        var ok, more := Receive(chunk);
        if !ok {
          return;
        }
        SplitsAppend(stream[..done], chunk, lines, before, more, Buffered());
        assert stream[..done] + chunk == stream[..done + n];
        lines := lines + more;
        done := done + n;
        count := count + 1;
      }
    }
  }
}
