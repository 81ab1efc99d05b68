/** Strings read from JSON: slices of the reader's buffer that are unescaped in place when first asked for. */
module JsonBuffer {
  import opened JsonText

  const NUL: char := '\0'

  /** The slice `[start, end)` of a buffer; the character before it tells whether it is still escaped. */
  predicate SliceOk(b: seq<char>, start: nat, end: nat) {
    && 0 < start <= end < |b|
    && (b[start - 1] != NUL ==> WellEscaped(b[start..end]) && '\\' in b[start..end])
  }

  /** The string that a slice stands for. */
  function SliceText(b: seq<char>, start: nat, end: nat): string
    requires SliceOk(b, start, end)
  {
    if b[start - 1] != NUL then Unescape(b[start..end]) else b[start..end]
  }

  lemma SliceSame(b: seq<char>, c: seq<char>, start: nat, end: nat)
    requires SliceOk(b, start, end) && |c| == |b| && forall k :: start - 1 <= k < end ==> b[k] == c[k]
    ensures SliceOk(c, start, end) && SliceText(c, start, end) == SliceText(b, start, end)
  {
    hide WellEscaped, Unescape;
    assert b[start..end] == c[start..end];
    if start < end { assert b[start - 1] == c[start - 1]; }
  }

  /** One escape sequence at the front of the unread part. */
  lemma UnescapeStep(s: string)
    requires s != "" && WellEscaped(s)
    ensures s[0] != '\\' ==> WellEscaped(s[1..]) && Unescape(s) == [s[0]] + Unescape(s[1..])
    ensures s[0] == '\\' ==>
              var n := EscapeLength(s);
              0 < n && WellEscaped(s[n..]) && Unescape(s) == Unescaped(s) + Unescape(s[n..])
  {
    hide EscapeLength, Unescaped;
  }

  /** Without a backslash there is nothing to do. */
  lemma {:induction false} UnescapePlain(s: string)
    requires '\\' !in s
    ensures WellEscaped(s) && Unescape(s) == s
    decreases |s|
  {
    if s != "" {
      UnescapePlain(s[1..]);
      assert [s[0]] + s[1..] == s;
    }
  }

  /** With a backslash the unescaped text is shorter. */
  lemma {:induction false} UnescapeShorter(s: string)
    requires WellEscaped(s)
    ensures '\\' in s <==> |Unescape(s)| < |s|
    decreases |s|
  {
    hide EscapeLength, Unescaped;
    if s != "" {
      UnescapeStep(s);
      if s[0] != '\\' {
        UnescapeShorter(s[1..]);
        assert s == [s[0]] + s[1..];
      }
    }
  }

  /** A string `rvalue`: a pointer to the text in a buffer it shares with its copies, and its own end. */
  class StringValue {
    const buf: array<char>
    const start: nat
    var end: nat

    ghost predicate Valid()
      reads this, buf
    {
      SliceOk(buf[..], start, end)
    }

    ghost function Text(): string
      requires Valid()
      reads this, buf
    {
      SliceText(buf[..], start, end)
    }

    constructor (buf: array<char>, start: nat, end: nat)
      requires SliceOk(buf[..], start, end)
      ensures Valid() && this.buf == buf && this.start == start && this.end == end
    {
      this.buf := buf;
      this.start := start;
      this.end := end;
    }

    /** `unescape`: the write pointer stays behind the read pointer, and the flag before the text makes a
        second call do nothing. */
    method Unescape()
      requires Valid()
      modifies this`end, buf
      ensures Valid() && Text() == old(Text())
      ensures buf[start - 1] == NUL && buf[start..end] == Text()
      ensures end <= old(end)
      ensures forall k :: 0 <= k < buf.Length && !(start - 1 <= k < old(end)) ==> buf[k] == old(buf[k])
      ensures old(buf[start - 1]) == NUL ==> buf[..] == old(buf[..]) && end == old(end)
      ensures end < old(end) ==> buf[end] == NUL
    {
      hide EscapeLength, Unescaped, WellEscaped, JsonText.Unescape;
      if buf[start - 1] == NUL {
        return;
      }
      var head, tail := start, start;
      ghost var raw := buf[start..end];
      while head != end
        invariant end == old(end) && Halfway(head, tail, raw)
        invariant forall k :: 0 <= k < buf.Length && !(start <= k < head) ==> buf[k] == old(buf[k])
      {
        head, tail := Step(head, tail, raw);
      }
      assert raw[head - start..] == "" && JsonText.Unescape("") == "" by { UnescapePlain(""); }
      UnescapeShorter(raw);
      end := tail;
      buf[end] := NUL;
      buf[start - 1] := NUL;
    }

    /** The text up to `head` has been rewritten up to `tail`. */
    ghost predicate Halfway(head: nat, tail: nat, raw: string)
      reads this, buf
    {
      && 0 < start <= tail <= head <= end < buf.Length && |raw| == end - start
      && buf[head..end] == raw[head - start..] && WellEscaped(raw[head - start..]) && WellEscaped(raw)
      && buf[start..tail] + JsonText.Unescape(raw[head - start..]) == JsonText.Unescape(raw)
    }

    /** One character or escape sequence is read at `head` and written at `tail`. */
    method Emit(head: nat, tail: nat, ghost rest: string) returns (head1: nat, tail1: nat)
      requires start <= tail <= head < end < buf.Length && rest == buf[head..end] && WellEscaped(rest)
      modifies buf
      ensures head < head1 <= end && tail < tail1 <= head1 && WellEscaped(rest[head1 - head..])
      ensures JsonText.Unescape(rest) == buf[tail..tail1] + JsonText.Unescape(rest[head1 - head..])
      ensures forall k :: 0 <= k < buf.Length && !(tail <= k < tail1) ==> buf[k] == old(buf[k])
    {
      hide EscapeLength, Unescaped, WellEscaped, JsonText.Unescape, Utf8, Code, ShortFor;
      UnescapeStep(rest);
      assert rest[0] == buf[head];
      head1, tail1 := head, tail;
      if buf[head] == '\\' {
        SequenceAt(buf[..], head, end, rest);
        if buf[head + 1] == 'u' {
          tail1 := WriteCode(head + 1, tail);
          head1 := head + 6;
        } else {
          buf[tail] := ShortFor(buf[head + 1]);
          tail1 := tail + 1;
          head1 := head + 2;
          assert buf[tail..tail1] == [buf[tail]];
        }
      } else {
        buf[tail] := buf[head];
        tail1 := tail + 1;
        head1 := head + 1;
        assert buf[tail..tail1] == [rest[0]];
      }
    }

    method Step(head: nat, tail: nat, ghost raw: string) returns (head1: nat, tail1: nat)
      requires Halfway(head, tail, raw) && head < end
      modifies buf
      ensures head < head1 && Halfway(head1, tail1, raw)
      ensures forall k :: 0 <= k < buf.Length && !(start <= k < head1) ==> buf[k] == old(buf[k])
    {
      hide WellEscaped, JsonText.Unescape;
      ghost var rest := raw[head - start..];
      ghost var done := buf[start..tail];
      head1, tail1 := Emit(head, tail, rest);
      assert raw[head1 - start..] == rest[head1 - head..];
      assert buf[start..tail1] == done + buf[tail..tail1];
      Regroup(done, buf[tail..tail1], JsonText.Unescape(rest[head1 - head..]), JsonText.Unescape(raw));
      assert forall k :: head1 <= k < end ==> buf[k] == old(buf[k]) == rest[k - head];
    }

    static lemma Regroup(done: string, more: string, rest: string, whole: string)
      requires done + (more + rest) == whole
      ensures done + more + rest == whole
    {
    }

    /** The bytes of the code unit whose four digits follow the 'u' at `at`. */
    method WriteCode(at: nat, tail: nat) returns (next: nat)
      requires start <= tail < at && at + 5 <= buf.Length && HexAt(buf[..], at + 1)
      modifies buf
      ensures var bytes := Utf8(Code(old(buf[..]), at + 1));
              && next == tail + |bytes| && next <= at + 5
              && buf[tail..next] == bytes
      ensures forall k :: 0 <= k < buf.Length && !(tail <= k < next) ==> buf[k] == old(buf[k])
    {
      var code := Code(buf[..], at + 1);
      next := tail;
      if code >= 0x800 {
        buf[next] := (0xE0 + code / 0x1000) as char;
        buf[next + 1] := (0x80 + code / 0x40 % 0x40) as char;
        buf[next + 2] := (0x80 + code % 0x40) as char;
        next := next + 3;
      } else if code >= 0x80 {
        buf[next] := (0xC0 + code / 0x40) as char;
        buf[next + 1] := (0x80 + code % 0x40) as char;
        next := next + 2;
      } else {
        buf[next] := code as char;
        next := next + 1;
      }
    }

    /** `s()`: always the same string, however often it is asked for. */
    method S() returns (r: string)
      requires Valid()
      modifies this`end, buf
      ensures Valid() && r == old(Text()) && Text() == old(Text())
      ensures forall k :: 0 <= k < buf.Length && !(start - 1 <= k < old(end)) ==> buf[k] == old(buf[k])
    {
      Unescape();
      r := buf[start..end];
    }
  }

  /** An escape sequence lies inside the slice. */
  lemma SequenceAt(b: seq<char>, head: nat, end: nat, rest: string)
    requires head < end < |b| && rest == b[head..end] && rest[0] == '\\' && EscapeLength(rest) > 0
    ensures head + EscapeLength(rest) <= end
    ensures b[head + 1] == rest[1]
    ensures EscapeLength(rest) == (if b[head + 1] == 'u' then 6 else 2)
    ensures b[head + 1] == 'u' ==> HexAt(b, head + 2) && Unescaped(rest) == Utf8(Code(b, head + 2))
    ensures b[head + 1] != 'u' ==> Unescaped(rest) == [ShortFor(b[head + 1])]
  {
    hide Utf8, FromHex;
    assert forall k :: 0 <= k < |rest| ==> rest[k] == b[head + k];
  }

  /** A copy of an `rvalue` shares the buffer but has its own end.  Taken before the text is first asked for, it
      keeps the old end: asked after the original it gives the right string exactly when there was nothing to
      unescape, and otherwise that string with the rest of the old text behind it. */
  method ReadThroughCopy(a: StringValue) returns (first: string, second: string)
    requires a.Valid()
    modifies a`end, a.buf
    ensures first == old(a.Text())
    ensures first <= second && |second| == old(a.end) - a.start
    ensures second == first <==> old(a.buf[a.start - 1]) == NUL
  {
    hide WellEscaped, JsonText.Unescape;
    if a.buf[a.start - 1] != NUL { UnescapeShorter(a.buf[a.start..a.end]); }
    var b := new StringValue(a.buf, a.start, a.end);
    a.Unescape();
    first := a.buf[a.start..a.end];
    b.Unescape();
    second := b.buf[b.start..b.end];
    assert forall k :: 0 <= k < |first| ==> first[k] == second[k];
  }
}
