/** The input buffer of a generated scanner: a window on the input that slides when
    a token starts behind its beginning and doubles when a token outgrows it. */
module Buffer {
  import opened Regex

  /** Lines ended in `s`: LF, CR, and CR LF once. */
  function Lines(s: seq<nat>): nat {
    if s == [] then 0
    else
      var c := s[|s| - 1];
      Lines(s[..|s| - 1]) + (if c == RETURN || (c == NEWLINE && !EndsWithReturn(s[..|s| - 1])) then 1 else 0)
  }

  predicate EndsWithReturn(s: seq<nat>) {
    s != [] && s[|s| - 1] == RETURN
  }

  predicate EndsLine(s: seq<nat>) {
    s != [] && (s[|s| - 1] == RETURN || s[|s| - 1] == NEWLINE
                || s[|s| - 1] == LINE_SEPARATOR || s[|s| - 1] == PARAGRAPH_SEPARATOR)
  }

  /** yy_move_end on the matched characters: without a final LF, then without a final CR. */
  function WithoutEol(s: seq<nat>): seq<nat> {
    WithoutLast(WithoutLast(s, NEWLINE), RETURN)
  }

  function WithoutLast(s: seq<nat>, c: nat): seq<nat> {
    if s != [] && s[|s| - 1] == c then s[..|s| - 1] else s
  }

  /** The counters are right for a token that starts at `pos`. */
  ghost predicate Counts(input: seq<nat>, pos: nat, chars: nat, lines: nat, lastWasCr: bool) {
    && pos <= |input| && chars == pos
    && lines == Lines(input[..pos]) && lastWasCr == EndsWithReturn(input[..pos])
  }

  lemma {:induction false} CountsNext(input: seq<nat>, pos: nat, chars: nat, lines: nat, lastWasCr: bool)
    requires Counts(input, pos, chars, lines, lastWasCr) && pos < |input|
    ensures var c := input[pos];
            Counts(input, pos + 1, chars + 1,
                   lines + (if c == RETURN || (c == NEWLINE && !lastWasCr) then 1 else 0), c == RETURN)
  {
    assert input[..pos + 1][..pos] == input[..pos];
  }

  /** java.io.Reader: delivers the input in chunks of any size. */
  class Reader {
    var rest: seq<nat>

    constructor (input: seq<nat>)
      ensures rest == input
    {
      rest := input;
    }

    /** At least one character unless the input is exhausted.  Asking for none is not allowed. */
    method Read(buf: array<nat>, off: nat, len: nat) returns (n: int)
      requires off + len <= buf.Length && len > 0
      modifies this, buf
      ensures n == -1 <==> old(rest) == []
      ensures n == -1 ==> rest == old(rest) && buf[..] == old(buf[..])
      ensures n != -1 ==> 0 < n <= len && n <= |old(rest)| && rest == old(rest)[n..]
      ensures n != -1 ==> forall j :: 0 <= j < buf.Length ==>
                buf[j] == if off <= j < off + n then old(rest)[j - off] else old(buf[j])
    {
      if rest == [] {
        return -1;
      }
      n :| 0 < n <= len && n <= |rest|;
      for i := 0 to n
        invariant rest == old(rest)
        invariant forall j :: 0 <= j < buf.Length ==>
                    buf[j] == if off <= j < off + i then rest[j - off] else old(buf[j])
      {
        buf[off + i] := rest[i];
      }
      rest := rest[n..];
    }
  }

  /** The first `n` cells hold the input from `base` on. */
  ghost predicate Holds(a: array<nat>, n: nat, input: seq<nat>, base: nat)
    reads a
  {
    n <= a.Length && base + n <= |input| && forall i :: 0 <= i < n ==> a[i] == input[base + i]
  }

  /** Copies the elements from `from` up to `to` to the front. */
  method MoveDown(a: array<nat>, from: nat, to: nat, ghost input: seq<nat>, ghost base: nat) returns (j: nat)
    requires from <= to && Holds(a, to, input, base)
    modifies a
    ensures j == to - from && Holds(a, j, input, base + from)
  {
    var i := from;
    j := 0;
    while i < to
      invariant from <= i <= to && j == i - from
      invariant forall k :: 0 <= k < j ==> a[k] == input[base + from + k]
      invariant forall k :: i <= k < to ==> a[k] == input[base + k]
    {
      a[j] := a[i];
      i := i + 1;
      j := j + 1;
    }
  }

  class Scanner {
    const eof: nat
    const reader: Reader
    var buffer: array<nat>
    var bufferRead: nat
    var bufferIndex: nat
    var bufferStart: nat
    /** Before the first accepting state of a token it may lie before the token. */
    var bufferEnd: int
    var atBol: bool
    var lastWasCr: bool
    var yychar: nat
    var yyline: nat
    /** The whole input, and how much of it came before the buffer. */
    ghost const input: seq<nat>
    ghost var base: nat

    ghost predicate Valid()
      reads this, reader, buffer
    {
      && bufferStart <= bufferIndex <= bufferRead <= buffer.Length && bufferEnd <= bufferIndex
      && buffer.Length > 0
      && Holds(buffer, bufferRead, input, base)
      && reader.rest == input[base + bufferRead..]
      && Counts(input, base + bufferStart, yychar, yyline, lastWasCr)
    }

    /** Where the token starts, where its marked end is, and where the scanner is. */
    ghost function Start(): nat reads this { base + bufferStart }
    ghost function End(): int reads this { base + bufferEnd }
    ghost function Position(): nat reads this { base + bufferIndex }

    /** The end of the current token has been marked. */
    ghost predicate HasMark() reads this { bufferStart <= bufferEnd }

    constructor (input: seq<nat>, reader: Reader, eof: nat, size: nat)
      requires reader.rest == input && size > 0
      ensures Valid() && fresh(buffer) && this.input == input && this.reader == reader && this.eof == eof
      ensures Start() == End() == Position() == 0 && atBol
    {
      this.input, this.reader, this.eof := input, reader, eof;
      buffer := new nat[size];
      bufferRead, bufferIndex, bufferStart, bufferEnd, base := 0, 0, 0, 0, 0;
      atBol, lastWasCr, yychar, yyline := true, false, 0, 0;
    }

    /** yy_double. */
    method Double()
      requires Valid()
      modifies this`buffer
      ensures Valid() && fresh(buffer) && buffer.Length == 2 * old(buffer.Length)
    {
      var newbuf := new nat[2 * buffer.Length];
      for i := 0 to buffer.Length
        invariant forall j :: 0 <= j < i ==> newbuf[j] == buffer[j]
        modifies newbuf
      {
        newbuf[i] := buffer[i];
      }
      buffer := newbuf;
    }

    /** The shift at the head of yy_advance: the token moves to the front of the buffer. */
    method Shift()
      requires Valid() && bufferIndex == bufferRead
      modifies this`bufferEnd, this`bufferStart, this`bufferRead, this`bufferIndex, this`base, buffer
      ensures Valid() && bufferStart == 0 && bufferIndex == bufferRead
      ensures bufferRead == old(bufferRead) - old(bufferStart)
      ensures Start() == old(Start()) && End() == old(End()) && Position() == old(Position())
    {
      var j := MoveDown(buffer, bufferStart, bufferRead, input, base);
      base := base + bufferStart;
      bufferEnd := bufferEnd - bufferStart;
      bufferStart := 0;
      bufferRead := j;
      bufferIndex := j;
    }

    /** One call of the reader; false at the end of the input. */
    method Fill() returns (more: bool)
      requires Valid() && bufferIndex == bufferRead < buffer.Length
      modifies this`bufferRead, reader, buffer
      ensures Valid() && more == (old(Position()) < |input|)
      ensures more ==> bufferIndex < bufferRead
      ensures !more ==> bufferRead == old(bufferRead)
    {
      var n := reader.Read(buffer, bufferRead, buffer.Length - bufferRead);
      if n == -1 {
        return false;
      }
      bufferRead := bufferRead + n;
      return true;
    }

    /** yy_advance: the next character, or EOF at the end of the input. */
    method Advance() returns (c: nat)
      requires Valid()
      modifies this`buffer, this`bufferEnd, this`bufferStart, this`bufferRead, this`bufferIndex, this`base, reader,
          buffer
      ensures Valid() && (buffer == old(buffer) || fresh(buffer))
      ensures Start() == old(Start()) && End() == old(End())
      ensures if old(Position()) < |input| then c == input[old(Position())] && Position() == old(Position()) + 1
              else c == eof && Position() == old(Position())
    {
      if bufferIndex < bufferRead {
        c := buffer[bufferIndex];
        bufferIndex := bufferIndex + 1;
        return;
      }
      var more := Refill();
      if !more {
        return eof;
      }
      c := buffer[bufferIndex];
      bufferIndex := bufferIndex + 1;
    }

    /** The rest of yy_advance: shift, read, double, until a character is there or the input ends. */
    method Refill() returns (more: bool)
      requires Valid() && bufferIndex == bufferRead
      modifies this`buffer, this`bufferEnd, this`bufferStart, this`bufferRead, this`bufferIndex, this`base, reader,
          buffer
      ensures Valid() && (buffer == old(buffer) || fresh(buffer))
      ensures Start() == old(Start()) && End() == old(End()) && Position() == old(Position())
      ensures more == (Position() < |input|) && (more ==> bufferIndex < bufferRead)
    {
      if bufferStart != 0 {
        Shift();
        more := Fill();
        if !more {
          return;
        }
      }
      more := FillUp();
    }

    /** The loop of yy_advance that reads, into a larger buffer if necessary. */
    method FillUp() returns (more: bool)
      requires Valid()
      modifies this`buffer, this`bufferRead, reader, buffer
      ensures Valid() && (buffer == old(buffer) || fresh(buffer))
      ensures Start() == old(Start()) && End() == old(End()) && Position() == old(Position())
      ensures more == (Position() < |input|) && (more ==> bufferIndex < bufferRead)
    {
      more := true;
      while bufferIndex >= bufferRead
        invariant Valid() && (buffer == old(buffer) || fresh(buffer)) && more
        invariant Start() == old(Start()) && End() == old(End()) && Position() == old(Position())
        decreases bufferIndex >= bufferRead
      {
        if bufferIndex >= buffer.Length {
          Double();
        }
        more := Fill();
        if !more {
          return;
        }
      }
    }

    /** yy_mark_start: a new token starts here; what is behind it is counted. */
    method MarkStart()
      requires Valid()
      modifies this`bufferStart, this`yychar, this`yyline, this`lastWasCr
      ensures Valid() && Start() == Position()
    {
      for i := bufferStart to bufferIndex
        invariant Counts(input, base + i, yychar + i - bufferStart, yyline, lastWasCr)
        modifies this`yyline, this`lastWasCr
      {
        CountsNext(input, base + i, yychar + i - bufferStart, yyline, lastWasCr);
        if buffer[i] == NEWLINE && !lastWasCr {
          yyline := yyline + 1;
        }
        if buffer[i] == RETURN {
          yyline := yyline + 1;
          lastWasCr := true;
        } else {
          lastWasCr := false;
        }
      }
      yychar := yychar + (bufferIndex - bufferStart);
      bufferStart := bufferIndex;
    }

    /** yy_mark_end. */
    method MarkEnd()
      requires Valid()
      modifies this`bufferEnd
      ensures Valid() && HasMark() && End() == Position()
    {
      bufferEnd := bufferIndex;
    }

    /** The characters between the token's start and its marked end: yytext. */
    ghost function Marked(): seq<nat>
      requires Valid() && HasMark()
      reads this, reader, buffer
    {
      input[Start()..End()]
    }

    /** The last marked character. */
    lemma {:induction false} LastMarked()
      requires Valid() && HasMark()
      ensures Marked() != [] <==> bufferEnd > bufferStart
      ensures bufferEnd > bufferStart ==> Marked()[|Marked()| - 1] == buffer[bufferEnd - 1]
    {}

    /** yy_move_end. */
    method MoveEnd()
      requires Valid() && HasMark()
      modifies this`bufferEnd
      ensures Valid() && HasMark() && Marked() == WithoutEol(old(Marked()))
    {
      DropLast(NEWLINE);
      DropLast(RETURN);
    }

    method DropLast(c: nat)
      requires Valid() && HasMark()
      modifies this`bufferEnd
      ensures Valid() && HasMark() && Marked() == WithoutLast(old(Marked()), c)
    {
      ghost var marked := Marked();
      LastMarked();
      if bufferEnd > bufferStart && buffer[bufferEnd - 1] == c {
        bufferEnd := bufferEnd - 1;
        assert Marked() == marked[..|marked| - 1];
      }
    }

    /** yy_to_mark: back to the marked end. */
    method ToMark()
      requires Valid() && HasMark()
      modifies this`bufferIndex, this`atBol
      ensures Valid() && HasMark() && Position() == End() && atBol == EndsLine(Marked())
    {
      LastMarked();
      bufferIndex := bufferEnd;
      atBol := bufferEnd > bufferStart &&
               (buffer[bufferEnd - 1] == RETURN || buffer[bufferEnd - 1] == NEWLINE ||
                buffer[bufferEnd - 1] == LINE_SEPARATOR || buffer[bufferEnd - 1] == PARAGRAPH_SEPARATOR);
    }

    /** yytext. */
    method YyText() returns (s: seq<nat>)
      requires Valid() && HasMark()
      ensures s == Marked()
    {
      s := buffer[bufferStart..bufferEnd];
    }
  }
}
