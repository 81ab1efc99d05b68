/** Content-Length and chunk-size arithmetic: which texts are accepted, and as what number. */
module HttpLengths {
  import opened HttpMachine
  import opened HexDigits

  predicate AllDigits(s: string) {
    forall i :: 0 <= i < |s| ==> IsNum(s[i])
  }

  function DigitsValue(s: string): nat
    requires AllDigits(s)
  {
    if s == "" then 0 else 10 * DigitsValue(s[..|s| - 1]) + (s[|s| - 1] as int - '0' as int)
  }

  /** The largest Content-Length the overflow guard lets through. */
  const MAX_CONTENT_LENGTH: nat := 0x1_0000_0000_0000_0000 - 7

  /** The scan of a Content-Length value after its first `i` bytes, the first of which is read by
      s_header_value_start. */
  function LengthScan(v: string, i: nat): Scanned
    requires 1 <= i <= |v|
  {
    if i == 1 then
      if IsNum(v[0]) then Scanned(Scan(HContentLengthNum, 0), v[0] as int - '0' as int) else Rejected(InvalidContentLength)
    else match LengthScan(v, i - 1)
      case Rejected(e) => Rejected(e)
      case Scanned(s, n) => ValueScan(s, n, v[i - 1])
  }

  /** `k` digits, then only spaces. */
  predicate DigitsThenSpaces(v: string, k: nat) {
    1 <= k <= |v| && AllDigits(v[..k]) && forall i :: k <= i < |v| ==> v[i] == ' '
  }

  predicate IsContentLength(v: string, k: nat) {
    DigitsThenSpaces(v, k) && DigitsValue(v[..k]) <= MAX_CONTENT_LENGTH
  }

  lemma NumScan(n: uint64, ch: char)
    ensures ValueScan(Scan(HContentLengthNum, 0), n, ch)
         == if ch == ' ' then Scanned(Scan(HContentLengthWs, 0), n)
            else if IsNum(ch) && 10 * n + (ch as int - '0' as int) <= MAX_CONTENT_LENGTH
                 then Scanned(Scan(HContentLengthNum, 0), 10 * n + (ch as int - '0' as int))
            else Rejected(InvalidContentLength)
    ensures ValueScan(Scan(HContentLengthWs, 0), n, ch)
         == if ch == ' ' then Scanned(Scan(HContentLengthWs, 0), n) else Rejected(InvalidContentLength)
  {
  }

  lemma {:induction false} DigitsScanned(v: string, i: nat)
    requires 1 <= i <= |v| && AllDigits(v[..i])
    ensures LengthScan(v, i) == if DigitsValue(v[..i]) <= MAX_CONTENT_LENGTH
                                then Scanned(Scan(HContentLengthNum, 0), DigitsValue(v[..i]))
                                else Rejected(InvalidContentLength)
  {
    hide ValueScan;
    assert v[..i][..i - 1] == v[..i - 1];
    assert IsNum(v[..i][i - 1]) && v[..i][i - 1] == v[i - 1];
    if i == 1 {
      assert DigitsValue(v[..0]) == 0;
    } else {
      DigitsScanned(v, i - 1);
      NumScan(if DigitsValue(v[..i - 1]) <= MAX_CONTENT_LENGTH then DigitsValue(v[..i - 1]) else 0, v[i - 1]);
    }
  }

  lemma {:induction false} SpacesScanned(v: string, k: nat, i: nat)
    requires k < i <= |v| && IsContentLength(v, k)
    ensures LengthScan(v, i) == Scanned(Scan(HContentLengthWs, 0), DigitsValue(v[..k]))
  {
    hide DigitsValue, ValueScan;
    NumScan(DigitsValue(v[..k]), v[i - 1]);
    if i == k + 1 {
      DigitsScanned(v, k);
    } else {
      SpacesScanned(v, k, i - 1);
    }
  }

  /** What a scan in progress says about the bytes read. */
  lemma {:induction false} ScannedIsLength(v: string, i: nat)
    requires 1 <= i <= |v| && LengthScan(v, i).Scanned?
    ensures LengthScan(v, i).scan in {Scan(HContentLengthNum, 0), Scan(HContentLengthWs, 0)}
    ensures LengthScan(v, i).scan.state.HContentLengthNum? ==> AllDigits(v[..i])
    ensures LengthScan(v, i).scan.state.HContentLengthWs? ==> exists k: nat :: k < i && DigitsThenSpaces(v[..i], k)
  {
    hide ValueScan, DigitsValue;
    if i > 1 {
      ScannedIsLength(v, i - 1);
      NumScan(LengthScan(v, i - 1).contentLength, v[i - 1]);
      if LengthScan(v, i).scan.state.HContentLengthNum? {
        assert v[..i] == v[..i - 1] + [v[i - 1]];
      } else if LengthScan(v, i - 1).scan.state.HContentLengthNum? {
        assert v[..i][..i - 1] == v[..i - 1];
        assert DigitsThenSpaces(v[..i], i - 1);
      } else {
        var k: nat :| k < i - 1 && DigitsThenSpaces(v[..i - 1], k);
        assert v[..i][..k] == v[..i - 1][..k];
        assert DigitsThenSpaces(v[..i], k);
      }
    }
  }

  /** A Content-Length value is accepted exactly if it is a number of at most 2^64 - 7 with spaces after it,
      and then it is stored as that number, which is never the sentinel ULLONG_MAX. */
  lemma ContentLengthExact(v: string)
    requires v != ""
    ensures LengthScan(v, |v|).Scanned? <==> exists k: nat :: IsContentLength(v, k)
    ensures forall k: nat :: IsContentLength(v, k) ==>
              LengthScan(v, |v|).contentLength == DigitsValue(v[..k]) && LengthScan(v, |v|).contentLength < ULLONG_MAX
  {
    hide LengthScan, DigitsValue;
    var n := |v|;
    assert v[..n] == v;
    forall k: nat | IsContentLength(v, k)
      ensures LengthScan(v, n).Scanned? && LengthScan(v, n).contentLength == DigitsValue(v[..k])
    {
      if k == n { DigitsScanned(v, n); } else { SpacesScanned(v, k, n); }
    }
    if LengthScan(v, n).Scanned? {
      ScannedIsLength(v, n);
      if LengthScan(v, n).scan.state.HContentLengthNum? {
        DigitsScanned(v, n);
        assert IsContentLength(v, n);
      } else {
        var k: nat :| k < n && DigitsThenSpaces(v[..n], k);
        ScannedBefore(v, k, n);
        DigitsScanned(v, k);
        assert IsContentLength(v, k);
      }
    }
  }

  lemma {:induction false} ScannedBefore(v: string, i: nat, j: nat)
    requires 1 <= i <= j <= |v| && LengthScan(v, j).Scanned?
    ensures LengthScan(v, i).Scanned?
  {
    hide ValueScan;
    if i < j { ScannedBefore(v, i, j - 1); }
  }

  // ---------------------------------------------------------------------------------------------

  predicate AllHex(s: string) {
    forall i :: 0 <= i < |s| ==> Unhex(s[i]) >= 0
  }

  function HexValue(s: string): nat
    requires AllHex(s)
  {
    if s == "" then 0 else 16 * HexValue(s[..|s| - 1]) + Unhex(s[|s| - 1])
  }

  /** The largest chunk size the overflow guard lets through. */
  const MAX_CHUNK_SIZE: nat := 0x1_0000_0000_0000_0000 - 17

  /** The machine after `i` bytes of a chunk-size line that are neither its end nor an extension; the
      header count is left out. */
  function SizeScan(m: Machine, s: string, i: nat): Machine
    requires 1 <= i <= |s|
  {
    if i == 1 then
      if Unhex(s[0]) == -1 then Fail(m, InvalidChunkSize) else m.(contentLength := Unhex(s[0]), state := ChunkSize)
    else
      var m1 := SizeScan(m, s, i - 1);
      if m1.errno != NoError then m1 else ChunkSizeStep(m1, s[i - 1])
  }

  /** A string of hex digits is accepted as a chunk size exactly if its value is at most 2^64 - 17, and then
      it is stored as that value. */
  lemma {:induction false} ChunkSizeExact(m: Machine, s: string, i: nat)
    requires 1 <= i <= |s| && m.errno == NoError && AllHex(s[..i])
    ensures SizeScan(m, s, i).errno == NoError <==> HexValue(s[..i]) <= MAX_CHUNK_SIZE
    ensures SizeScan(m, s, i).errno in {NoError, InvalidContentLength}
    ensures HexValue(s[..i]) <= MAX_CHUNK_SIZE ==>
              SizeScan(m, s, i) == m.(contentLength := HexValue(s[..i]), state := ChunkSize)
  {
    hide Unhex;
    assert s[..i][..i - 1] == s[..i - 1];
    assert Unhex(s[..i][i - 1]) >= 0 && s[..i][i - 1] == s[i - 1];
    if i == 1 {
      assert HexValue(s[..0]) == 0;
    } else {
      ChunkSizeExact(m, s, i - 1);
      NotCR(s[i - 1]);
    }
  }

  /** The table `unhex` has the value of every digit, in both cases, */
  lemma UnhexIs(c: char, d: nat)
    requires Spells(c, d)
    ensures Unhex(c) == d
  {
  }

  /** and no value for any other ASCII character. */
  lemma UnhexNone(c: char)
    requires c < '\U{80}'
    ensures Unhex(c) == -1 <==> !IsDigit(c)
  {
    if Unhex(c) >= 0 {
      assert Spells(c, Unhex(c));
    } else {
      forall d: nat ensures !Spells(c, d) { if Spells(c, d) { UnhexIs(c, d); } }
    }
  }

  lemma NotCR(ch: char)
    requires Unhex(ch) >= 0
    ensures ch != CR
  {
  }

  /** Bytes from 128 up pass for the digit 0: the table `unhex` says so. */
  lemma HighByteIsZero(s: string, high: char)
    requires AllHex(s) && high >= '\U{80}'
    ensures AllHex(s + [high]) && HexValue(s + [high]) == 16 * HexValue(s) == HexValue(s + "0")
  {
    assert (s + [high])[..|s|] == s && (s + "0")[..|s|] == s;
  }
}
