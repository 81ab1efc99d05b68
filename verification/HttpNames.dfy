/** Which header names the field scanner recognises. */
module HttpNames {
  import opened Wrappers
  import opened HttpMachine

  function LowerName(n: string): (l: string)
    ensures |l| == |n|
  {
    seq(|n|, i requires 0 <= i < |n| => TokenLower(n[i]))
  }

  /** The scanner after a whole non-empty name. */
  function NameScan(n: string): Option<Scan>
    requires n != ""
  {
    if |n| == 1 then Some(Scan(FirstLetterState(n[0]), 0))
    else match NameScan(n[..|n| - 1])
      case None => None
      case Some(s) => FieldScan(s, n[|n| - 1])
  }

  function FirstLetterState(ch: char): HeaderState {
    var c := TokenLower(ch);
    if c == 'c' then HC
    else if c == 'p' then HMatchingProxyConnection
    else if c == 't' then HMatchingTransferEncoding
    else if c == 'u' then HMatchingUpgrade
    else HGeneral
  }

  /** What is known of a name of which `l` has been read, in lower case. */
  function Known(l: string): HeaderState {
    if l == KeywordText(HMatchingConnection) || l == KeywordText(HMatchingProxyConnection) then HConnection
    else if l == KeywordText(HMatchingContentLength) then HContentLength
    else if l == KeywordText(HMatchingTransferEncoding) then HTransferEncoding
    else if l == KeywordText(HMatchingUpgrade) then HUpgrade
    else if l <= KeywordText(HMatchingProxyConnection) then HMatchingProxyConnection
    else if l <= KeywordText(HMatchingTransferEncoding) then HMatchingTransferEncoding
    else if l <= KeywordText(HMatchingUpgrade) then HMatchingUpgrade
    else if l <= KeywordText(HMatchingConnection) then
      if |l| == 1 then HC else if |l| == 2 then HCO else if |l| == 3 then HCON else HMatchingConnection
    else if l <= KeywordText(HMatchingContentLength) then HMatchingContentLength
    else HGeneral
  }

  /** All that matters about the five keywords: how long they are and how they begin. */
  lemma Keywords()
    ensures var c, l := KeywordText(HMatchingConnection), KeywordText(HMatchingContentLength);
            && |c| == 10 && c[0] == 'c' && c[1] == 'o' && c[2] == 'n' && c[3] == 'n'
            && |l| == 14 && l[0] == 'c' && l[1] == 'o' && l[2] == 'n' && l[3] == 't'
    ensures |KeywordText(HMatchingProxyConnection)| == 16 && KeywordText(HMatchingProxyConnection)[0] == 'p'
    ensures |KeywordText(HMatchingTransferEncoding)| == 17 && KeywordText(HMatchingTransferEncoding)[0] == 't'
    ensures |KeywordText(HMatchingUpgrade)| == 7 && KeywordText(HMatchingUpgrade)[0] == 'u'
  {
  }

  lemma PrefixGrows(l: string, c: char, kw: string)
    ensures l + [c] <= kw <==> l <= kw && |l| < |kw| && kw[|l|] == c
  {
    if l <= kw && |l| < |kw| && kw[|l|] == c {
      assert kw[..|l| + 1] == kw[..|l|] + [kw[|l|]];
    }
  }

  /** States in which nothing is compared any more. */
  predicate Settled(h: HeaderState) {
    h.HGeneral? || h.HConnection? || h.HContentLength? || h.HTransferEncoding? || h.HUpgrade?
  }

  /** One more character of a name, read by the scanner. */
  lemma KnownGrows(l: string, i: nat, ch: char)
    requires l != "" && (!Settled(Known(l)) ==> i == |l| - 1)
    ensures FieldScan(Scan(Known(l), i), ch)
         == Some(Scan(Known(l + [TokenLower(ch)]), if Settled(Known(l)) then i else |l|))
    ensures Settled(Known(l)) ==> Known(l + [TokenLower(ch)]).HGeneral?
  {
    hide KeywordText;
    var c := TokenLower(ch);
    Keywords();
    PrefixGrows(l, c, KeywordText(HMatchingConnection));
    PrefixGrows(l, c, KeywordText(HMatchingProxyConnection));
    PrefixGrows(l, c, KeywordText(HMatchingContentLength));
    PrefixGrows(l, c, KeywordText(HMatchingTransferEncoding));
    PrefixGrows(l, c, KeywordText(HMatchingUpgrade));
  }

  lemma FirstKnown(ch: char)
    ensures FirstLetterState(ch) == Known([TokenLower(ch)])
  {
    hide KeywordText;
    var c := TokenLower(ch);
    Keywords();
    PrefixGrows("", c, KeywordText(HMatchingConnection));
    PrefixGrows("", c, KeywordText(HMatchingProxyConnection));
    PrefixGrows("", c, KeywordText(HMatchingContentLength));
    PrefixGrows("", c, KeywordText(HMatchingTransferEncoding));
    PrefixGrows("", c, KeywordText(HMatchingUpgrade));
    assert "" + [c] == [c];
  }

  /** The scanner recognises a name exactly when it equals a keyword up to the case of its letters, and
      its assert about the header state never fails. */
  lemma {:induction false} NameRecognised(n: string)
    requires n != ""
    ensures NameScan(n).Some?
    ensures NameScan(n).value.state == Known(LowerName(n))
    ensures !Settled(NameScan(n).value.state) ==> NameScan(n).value.index == |n| - 1
  {
    hide Known, FirstLetterState, FieldScan;
    if |n| == 1 {
      FirstKnown(n[0]);
      assert LowerName(n) == [TokenLower(n[0])];
    } else {
      var n1, ch := n[..|n| - 1], n[|n| - 1];
      NameRecognised(n1);
      assert LowerName(n) == LowerName(n1) + [TokenLower(ch)];
      KnownGrows(LowerName(n1), NameScan(n1).value.index, ch);
    }
  }

  lemma WholeKeywords(l: string)
    ensures Known(l).HContentLength? <==> l == "content-length"
    ensures Known(l).HTransferEncoding? <==> l == "transfer-encoding"
    ensures Known(l).HUpgrade? <==> l == "upgrade"
    ensures Known(l).HConnection? <==> l in {"connection", "proxy-connection"}
  {
  }

  /** Exactly the names "content-length", "transfer-encoding" and "upgrade" change how the body is read. */
  lemma FramingNames(n: string)
    requires n != ""
    ensures NameScan(n).Some?
    ensures NameScan(n).value.state.HContentLength? <==> LowerName(n) == "content-length"
    ensures NameScan(n).value.state.HTransferEncoding? <==> LowerName(n) == "transfer-encoding"
    ensures NameScan(n).value.state.HUpgrade? <==> LowerName(n) == "upgrade"
    ensures NameScan(n).value.state.HConnection? <==> LowerName(n) in {"connection", "proxy-connection"}
  {
    hide NameScan, FieldScan, FirstLetterState, LowerName, Known;
    NameRecognised(n);
    WholeKeywords(LowerName(n));
  }
}
