/** The reader's `Parser`: it walks a NUL-terminated buffer, writes flags and NULs over the quotes it has passed,
    and hands out values that point into the buffer. */
module JsonReader {
  import opened Wrappers
  import opened JsonText
  import opened JsonBuffer

  /** `rvalue`: numbers and strings are slices of the buffer. */
  datatype RValue =
    | RNull | RFalse | RTrue
    | RNumber(start: nat, end: nat)
    | RString(start: nat, end: nat)
    | RList(items: seq<RValue>)
    | RObject(members: seq<RMember>)

  datatype RMember = RMember(keyStart: nat, keyEnd: nat, value: RValue)

  /** All slices of the value lie in `[lo, hi)` of the buffer and stand for something. */
  predicate Inside(b: seq<char>, v: RValue, lo: nat, hi: nat)
    decreases v, 0
  {
    match v
    case RNumber(start, end) => lo <= start <= end <= hi <= |b|
    case RString(start, end) => lo < start && end < hi && SliceOk(b, start, end)
    case RList(items) => AllInside(b, items, lo, hi)
    case RObject(members) => MembersInside(b, members, lo, hi)
    case _ => true
  }

  predicate AllInside(b: seq<char>, items: seq<RValue>, lo: nat, hi: nat)
    decreases items, 0
  {
    items == [] || (Inside(b, items[0], lo, hi) && AllInside(b, items[1..], lo, hi))
  }

  predicate MembersInside(b: seq<char>, members: seq<RMember>, lo: nat, hi: nat)
    decreases members, 0
  {
    members == [] ||
    (MemberInside(b, members[0], lo, hi) && MembersInside(b, members[1..], lo, hi))
  }

  /** A key has been unescaped when it was read. */
  predicate MemberInside(b: seq<char>, m: RMember, lo: nat, hi: nat)
    decreases m, 0
  {
    lo <= m.keyStart <= m.keyEnd <= hi <= |b| && Inside(b, m.value, lo, hi)
  }

  /** The value that an `rvalue` stands for. */
  function Meaning(b: seq<char>, v: RValue, lo: nat, hi: nat): Json
    requires Inside(b, v, lo, hi)
    decreases v, 0
  {
    match v
    case RNull => Null
    case RFalse => False
    case RTrue => True
    case RNumber(start, end) => Number(b[start..end])
    case RString(start, end) => Str(SliceText(b, start, end))
    case RList(items) => List(MeaningOf(b, items, lo, hi))
    case RObject(members) => Object(MembersMeaning(b, members, lo, hi))
  }

  function MeaningOf(b: seq<char>, items: seq<RValue>, lo: nat, hi: nat): seq<Json>
    requires AllInside(b, items, lo, hi)
    decreases items, 0
  {
    if items == [] then [] else [Meaning(b, items[0], lo, hi)] + MeaningOf(b, items[1..], lo, hi)
  }

  function MembersMeaning(b: seq<char>, members: seq<RMember>, lo: nat, hi: nat): seq<Member>
    requires MembersInside(b, members, lo, hi)
    decreases members, 0
  {
    if members == [] then [] else [MemberMeaning(b, members[0], lo, hi)] + MembersMeaning(b, members[1..], lo, hi)
  }

  function MemberMeaning(b: seq<char>, m: RMember, lo: nat, hi: nat): Member
    requires MemberInside(b, m, lo, hi)
    decreases m, 0
  {
    Member(b[m.keyStart..m.keyEnd], Meaning(b, m.value, lo, hi))
  }

  /** What happens elsewhere in the buffer does not matter to a value. */
  lemma {:induction false} Undisturbed(b: seq<char>, c: seq<char>, v: RValue, lo: nat, hi: nat, lo1: nat, hi1: nat)
    requires Inside(b, v, lo, hi) && |b| == |c| && lo1 <= lo && hi <= hi1 <= |b|
    requires forall k :: lo <= k < hi ==> b[k] == c[k]
    ensures Inside(c, v, lo1, hi1) && Meaning(c, v, lo1, hi1) == Meaning(b, v, lo, hi)
    decreases v, 0
  {
    hide SliceOk, SliceText;
    match v
    case RNumber(start, end) => assert b[start..end] == c[start..end];
    case RString(start, end) => SliceBound(b, start, end); SliceSame(b, c, start, end);
    case RList(items) => AllUndisturbed(b, c, items, lo, hi, lo1, hi1);
    case RObject(members) => MembersUndisturbed(b, c, members, lo, hi, lo1, hi1);
    case _ =>
  }

  lemma {:induction false} AllUndisturbed(b: seq<char>, c: seq<char>, items: seq<RValue>, lo: nat, hi: nat,
                                          lo1: nat, hi1: nat)
    requires AllInside(b, items, lo, hi) && |b| == |c| && lo1 <= lo && hi <= hi1 <= |b|
    requires forall k :: lo <= k < hi ==> b[k] == c[k]
    ensures AllInside(c, items, lo1, hi1) && MeaningOf(c, items, lo1, hi1) == MeaningOf(b, items, lo, hi)
    decreases items, 0
  {
    hide Inside, Meaning;
    if items != [] {
      Undisturbed(b, c, items[0], lo, hi, lo1, hi1);
      AllUndisturbed(b, c, items[1..], lo, hi, lo1, hi1);
    }
  }

  lemma {:induction false} MembersUndisturbed(b: seq<char>, c: seq<char>, members: seq<RMember>, lo: nat, hi: nat,
                                              lo1: nat, hi1: nat)
    requires MembersInside(b, members, lo, hi) && |b| == |c| && lo1 <= lo && hi <= hi1 <= |b|
    requires forall k :: lo <= k < hi ==> b[k] == c[k]
    ensures MembersInside(c, members, lo1, hi1)
    ensures MembersMeaning(c, members, lo1, hi1) == MembersMeaning(b, members, lo, hi)
    decreases members, 0
  {
    hide Inside, Meaning;
    if members != [] {
      MemberUndisturbed(b, c, members[0], lo, hi, lo1, hi1);
      MembersUndisturbed(b, c, members[1..], lo, hi, lo1, hi1);
    }
  }

  lemma {:induction false} MemberUndisturbed(b: seq<char>, c: seq<char>, m: RMember, lo: nat, hi: nat,
                                             lo1: nat, hi1: nat)
    requires MemberInside(b, m, lo, hi) && |b| == |c| && lo1 <= lo && hi <= hi1 <= |b|
    requires forall k :: lo <= k < hi ==> b[k] == c[k]
    ensures MemberInside(c, m, lo1, hi1) && MemberMeaning(c, m, lo1, hi1) == MemberMeaning(b, m, lo, hi)
    decreases m, 0
  {
    hide Inside, Meaning;
    Undisturbed(b, c, m.value, lo, hi, lo1, hi1);
    assert b[m.keyStart..m.keyEnd] == c[m.keyStart..m.keyEnd];
  }

  lemma {:induction false} ItemAppended(b: seq<char>, items: seq<RValue>, v: RValue, lo: nat, hi: nat)
    requires AllInside(b, items, lo, hi) && Inside(b, v, lo, hi)
    ensures AllInside(b, items + [v], lo, hi)
    ensures MeaningOf(b, items + [v], lo, hi) == MeaningOf(b, items, lo, hi) + [Meaning(b, v, lo, hi)]
    decreases |items|
  {
    hide Inside, Meaning;
    if items == [] {
      assert [] + [v] == [v] && [v][1..] == [];
    } else {
      assert (items + [v])[0] == items[0] && (items + [v])[1..] == items[1..] + [v];
      ItemAppended(b, items[1..], v, lo, hi);
    }
  }

  lemma {:induction false} MemberAppended(b: seq<char>, members: seq<RMember>, m: RMember, lo: nat, hi: nat)
    requires MembersInside(b, members, lo, hi) && MemberInside(b, m, lo, hi)
    ensures MembersInside(b, members + [m], lo, hi)
    ensures MembersMeaning(b, members + [m], lo, hi) == MembersMeaning(b, members, lo, hi) + [MemberMeaning(b, m, lo, hi)]
    decreases |members|
  {
    hide MemberInside, MemberMeaning;
    if members == [] {
      assert [] + [m] == [m] && [m][1..] == [];
    } else {
      assert (members + [m])[0] == members[0] && (members + [m])[1..] == members[1..] + [m];
      MemberAppended(b, members[1..], m, lo, hi);
    }
  }

  // ---------------------------------------------------------------------------------------------
  // The parser

  class Parser {
    const buf: array<char>
    var data: nat

    predicate Valid()
      reads this, buf
    {
      buf.Length > 0 && data < buf.Length && buf[buf.Length - 1] == NUL
    }

    /** The text that has not been read. */
    function Rest(): string
      requires Valid()
      reads this, buf
    {
      buf[data..buf.Length - 1]
    }

    /** The parser has only written before its own position, and not before `from`. */
    twostate predicate Advanced(from: nat)
      reads this, buf
    {
      && old(data) <= data < buf.Length
      && (forall k :: 0 <= k < from && k < buf.Length ==> buf[k] == old(buf[k]))
      && (forall k :: data <= k < buf.Length ==> buf[k] == old(buf[k]))
    }

    constructor (buf: array<char>)
      requires buf.Length > 0 && buf[buf.Length - 1] == NUL
      ensures Valid() && this.buf == buf && data == 0
    {
      this.buf := buf;
      data := 0;
    }

    method WsSkip()
      requires Valid()
      modifies this`data
      ensures Valid() && data == old(data) + Skip(old(Rest()))
      ensures Rest() == old(Rest())[Skip(old(Rest()))..]
    {
      hide Skip, Skipping, Rest;
      ghost var s, b, from := Rest(), buf[..], data;
      FirstOfRest();
      SkippingStart(b, s, from);
      while buf[data] == ' ' || buf[data] == '\t' || buf[data] == '\r' || buf[data] == '\n'
        invariant from <= data < buf.Length && Skipping(b, s, from, data)
        decreases buf.Length - data
      {
        SkippingMore(b, s, from, data);
        data := data + 1;
      }
      SkippingDone(b, s, from, data);
      FirstOfRest();
    }

    /** `decode_string`: the slice between the quotes, which are overwritten by the flag and a NUL. */
    method DecodeString() returns (r: Option<(nat, nat)>)
      requires Valid()
      modifies this`data, buf
      ensures Valid() && Advanced(old(data))
      ensures var spec := JsonText.DecodeString(old(Rest()));
              && r.Some? == spec.Some?
              && (r.Some? ==>
                    && data == old(data) + spec.value.n && r.value.0 == old(data) + 1 && r.value.1 == data - 1
                    && SliceOk(buf[..], r.value.0, r.value.1)
                    && SliceText(buf[..], r.value.0, r.value.1) == spec.value.value)
    {
      hide Scan, SliceOk, SliceText, JsonText.DecodeString, Unescape, WellEscaped;
      r := None;
      ghost var s := Rest();
      StringStarts(s);
      if buf[data] != '"' {
        if s != "" { assert s[0] == buf[data]; }
        return;
      }
      assert s[0] == '"';
      data := data + 1;
      var start := data;
      assert Rest() == s[1..];
      var ok, escaping := ScanContents();
      if !ok { return; }
      assert buf[..] == old(buf[..]);
      StringClosed(buf[..], s, start, data);
      CloseString(start, escaping);
      r := Some((start, data - 1));
    }

    /** The flag and the NUL over the quotes around the contents. */
    method CloseString(start: nat, escaping: bool)
      requires Valid() && 0 < start <= data < buf.Length - 1
      requires WellEscaped(buf[start..data]) && escaping == HasBackslash(buf[..], start, data)
      modifies this`data, buf
      ensures Valid() && data == old(data) + 1
      ensures forall k :: 0 <= k < buf.Length && k != start - 1 && k != old(data) ==> buf[k] == old(buf[k])
      ensures SliceOk(buf[..], start, old(data)) && SliceText(buf[..], start, old(data)) == Unescape(old(buf[start..data]))
    {
      hide SliceOk, SliceText, WellEscaped, Unescape;
      ghost var b := buf[..];
      assert b[start..data] == buf[start..data];
      buf[data] := NUL;
      buf[start - 1] := if escaping then 1 as char else NUL;
      data := data + 1;
      StringRead(b, buf[..], start, data - 1);
    }

    /** The loop of `decode_string`: up to the closing quote, if there is one. */
    method ScanContents() returns (ok: bool, escaping: bool)
      requires Valid()
      modifies this`data
      ensures Valid() && old(data) <= data
      ensures ok == Scan(old(Rest())).Some?
      ensures ok ==> Scan(old(Rest())) == Some(data - old(data)) && buf[data] == '"'
      ensures ok ==> escaping == HasBackslash(buf[..], old(data), data)
    {
      hide Scan, EscapeLength, HasBackslash, Scanning;
      ghost var s, b, start := Rest(), buf[..], data;
      ScanningStart(b, s, start);
      ok, escaping := false, false;
      while buf[data] != '"'
        invariant start <= data < buf.Length && Scanning(b, s, start, data, escaping)
        decreases buf.Length - data
      {
        var k := ScanRound();
        ScanningMore(b, s, start, data, escaping, k);
        if k == 0 { return; }
        escaping := escaping || buf[data] == '\\';
        data := data + k;
      }
      ScanningDone(b, s, start, data, escaping);
      assert buf[..] == b;
      ok := true;
    }

    /** One round: how many characters it passes, 0 where the string cannot go on. */
    method ScanRound() returns (k: nat)
      requires Valid() && buf[data] != '"'
      ensures k <= |Rest()|
      ensures k == 0 ==> Scan(Rest()) == None
      ensures k > 0 ==> Scan(Rest()) == Shift(k, Scan(Rest()[k..])) && (buf[data] != '\\' ==> k == 1)
    {
      hide Scan, EscapeLength;
      ScanStep(Rest());
      FirstOfRest();
      if buf[data] == NUL {
        k := 0;
      } else if buf[data] == '\\' {
        k := Sequence();
      } else {
        k := 1;
      }
    }

    lemma FirstOfRest()
      requires Valid()
      ensures Rest() == buf[data..buf.Length - 1]
      ensures buf[data] != NUL ==> Rest() != ""
      ensures Rest() != "" ==> Rest()[0] == buf[data]
    {
    }

    /** The length of the escape sequence at a backslash; 0 for a bad one. */
    method Sequence() returns (n: nat)
      requires Valid() && buf[data] == '\\'
      ensures Rest() != "" && Rest()[0] == '\\' && n == EscapeLength(Rest())
    {
      ghost var s := Rest();
      assert forall k :: 0 <= k < |s| ==> s[k] == buf[data + k];
      n := 0;
      if buf[data + 1] == 'u' {
        if IsHex(buf[data + 2]) && IsHex(buf[data + 3]) && IsHex(buf[data + 4]) && IsHex(buf[data + 5]) {
          n := 6;
        }
      } else if buf[data + 1] in SHORT {
        n := 2;
      }
    }

    /** `decode_number` */
    method DecodeNumber() returns (r: Option<RValue>)
      requires Valid()
      modifies this`data
      ensures Valid() && Advanced(old(data))
      ensures Decoded(JsonText.DecodeNumber(old(Rest())), r, old(data))
    {
      hide NumberLength, NumberStep, Counting;
      ghost var s, b, start := Rest(), buf[..], data;
      var from := data;
      var state := Minus;
      CountingStart(b, s, start);
      r := None;
      while !state.Invalid?
        invariant start <= data < buf.Length && Counting(b, s, start, data, state)
        decreases buf.Length - data
      {
        CountingEnd(b, s, start, data, state);
        if !InNumber(buf[data]) {
          if Accepting(state) {
            r := Some(RNumber(from, data));
            assert s[..data - start] == buf[from..data];
          }
          return;
        }
        CountingMore(b, s, start, data, state);
        var c := buf[data];
        state := NumberStep(state, c);
        if '1' <= c <= '9' {
          AfterDigit(state, c);
          while '0' <= buf[data + 1] <= '9'
            invariant start <= data < buf.Length - 1 && Counting(b, s, start, data + 1, state) && DigitLoop(state)
            decreases buf.Length - data
          {
            CountingMore(b, s, start, data + 1, state);
            SameState(state, buf[data + 1]);
            data := data + 1;
          }
        }
        data := data + 1;
      }
      CountingInvalid(b, s, start, data);
    }

    /** What a call returns agrees with what the text says from its start on. */
    ghost predicate Decoded(spec: Option<Read<Json>>, r: Option<RValue>, from: nat)
      reads this, buf
    {
      && r.Some? == spec.Some?
      && (r.Some? ==>
            && data == from + spec.value.n && data <= buf.Length
            && Inside(buf[..], r.value, from, data) && Meaning(buf[..], r.value, from, data) == spec.value.value)
    }

    /** Literals; the comparison stops at the first difference, so it does not run past the end. */
    method DecodeWord(word: string, v: RValue) returns (r: Option<RValue>)
      requires Valid() && word != "" && buf[data] == word[0] && NUL !in word
      requires v.RNull? || v.RFalse? || v.RTrue?
      modifies this`data
      ensures Valid() && Advanced(old(data))
      ensures r == if Word(old(Rest()), word) then Some(v) else None
      ensures data == if r.Some? then old(data) + |word| else old(data)
    {
      ghost var s := Rest();
      var k := 1;
      while k < |word| && buf[data + k] == word[k]
        invariant 1 <= k <= |word| && data + k < buf.Length && buf[data..data + k] == word[..k]
      {
        assert buf[data..data + k + 1] == buf[data..data + k] + [buf[data + k]];
        assert word[..k + 1] == word[..k] + [word[k]];
        k := k + 1;
      }
      if k == |word| {
        assert s[..|word|] == buf[data..data + k] == word;
        data := data + k;
        r := Some(v);
      } else {
        NotWord(buf[..], data, word, k);
        r := None;
      }
    }

    /** `decode_value` */
    method DecodeValue(depth: nat) returns (r: Option<RValue>)
      requires Valid()
      modifies this`data, buf
      ensures Valid() && Advanced(old(data))
      ensures Decoded(JsonText.DecodeValue(old(Rest()), depth), r, old(data))
      decreases buf.Length - data, 1
    {
      hide JsonText.DecodeValue, Meaning, Inside, Word, JsonText.DecodeList, JsonText.DecodeObject,
           JsonText.DecodeNumber, JsonText.DecodeString, SliceText, SliceOk;
      ghost var s, from := Rest(), data;
      FirstOfRest();
      ValueCases(s, depth, buf[data]);
      var c := buf[data];
      if c == '[' {
        r := DecodeList(depth + 1);
      } else if c == '{' {
        r := DecodeObject(depth + 1);
      } else if c == '"' {
        var t := DecodeString();
        r := None;
        if t.Some? {
          StringMeaning(buf[..], t.value.0, t.value.1, from, data);
          r := Some(RString(t.value.0, t.value.1));
        }
      } else if c == 't' {
        r := DecodeWord("true", RTrue);
        Literals(buf[..], from, data);
      } else if c == 'f' {
        r := DecodeWord("false", RFalse);
        Literals(buf[..], from, data);
      } else if c == 'n' {
        r := DecodeWord("null", RNull);
        Literals(buf[..], from, data);
      } else {
        r := DecodeNumber();
      }
    }

    /** What follows an item that ends here, `n` characters after the start of `s`. */
    method Follow(close: char, ghost s: string, ghost n: nat) returns (ok: bool, last: bool)
      requires Valid() && n <= |s| && s[n..] == Rest() && close != NUL
      modifies this`data
      ensures Valid() && Advanced(old(data))
      ensures var a := AfterItem(s, n, close);
              && ok == !a.Wrong? && last == a.End?
              && (a.End? ==> data == old(data) + a.n - n)
              && (a.More? ==> data == old(data) + a.n - n && Rest() == s[a.n..])
    {
      hide Skip, Rest;
      ok, last := false, false;
      ghost var k := SkipIn(s, n);
      if buf[data] == close {
        StepOver(s, n + k);
        ok, last := true, true;
      } else if buf[data] == ',' {
        StepOver(s, n + k);
        ghost var j := SkipIn(s, n + k + 1);
        ok := true;
      }
    }

    /** `ws_skip`, `n` characters after the start of `s`. */
    method SkipIn(ghost s: string, ghost n: nat) returns (ghost k: nat)
      requires Valid() && n <= |s| && Rest() == s[n..]
      modifies this`data
      ensures Valid() && k == Skip(s[n..]) && n + k <= |s| && Rest() == s[n + k..] && data == old(data) + k
      ensures n + k == |s| ==> buf[data] == NUL
      ensures n + k < |s| ==> s[n + k] == buf[data]
    {
      hide Skip;
      k := Skip(Rest());
      WsSkip();
      Twice(s, n, k);
      FirstOfRest();
      if Rest() != "" { assert s[n + k] == Rest()[0]; }
    }

    /** Over one character. */
    method StepOver(ghost s: string, ghost n: nat)
      requires Valid() && n < |s| && Rest() == s[n..]
      modifies this`data
      ensures Valid() && data == old(data) + 1 && Rest() == s[n + 1..]
    {
      assert buf[data + 1..buf.Length - 1] == Rest()[1..];
      data := data + 1;
    }

    /** `decode_list` at an opening bracket */
    method DecodeList(depth: nat) returns (r: Option<RValue>)
      requires Valid() && buf[data] == '['
      modifies this`data, buf
      ensures Valid() && Advanced(old(data))
      ensures old(Rest()) != "" && old(Rest())[0] == '['
      ensures Decoded(JsonText.DecodeList(old(Rest()), depth), r, old(data))
      decreases buf.Length - data, 0
    {
      hide JsonText.DecodeValue, Meaning, Inside, JsonText.DecodeItems, AllInside, MeaningOf, Skip, Rest;
      ghost var s, from := Rest(), data;
      FirstOfRest();
      r := None;
      Whole(s);
      StepOver(s, 0);
      if depth > MAX_DEPTH { return; }
      ghost var k := SkipIn(s, 1);
      k := k + 1;
      if buf[data] == ']' {
        StepOver(s, k);
        NothingInside(buf[..], from, data);
        r := Some(RList([]));
      } else {
        var items := DecodeItems(depth);
        if items.Some? {
          Widened(buf[..], items.value, from + k, from, data);
          r := Some(RList(items.value));
        }
      }
    }

    /** The loop of `decode_list`. */
    method DecodeItems(depth: nat) returns (r: Option<seq<RValue>>)
      requires Valid()
      modifies this`data, buf
      ensures Valid() && Advanced(old(data))
      ensures var spec := JsonText.DecodeItems(old(Rest()), depth);
              && r.Some? == spec.Some?
              && (r.Some? ==>
                    && data == old(data) + spec.value.n
                    && AllInside(buf[..], r.value, old(data), data)
                    && MeaningOf(buf[..], r.value, old(data), data) == spec.value.value)
      decreases buf.Length - data, 2
    {
      hide JsonText.DecodeValue, Meaning, Inside, JsonText.DecodeItems, AllInside, MeaningOf, Skip, AfterItem, ItemsSoFar;
      ghost var s, from := Rest(), data;
      var items: seq<RValue> := [];
      NoItems(buf[..], s, depth, from);
      r := None;
      while true
        invariant Valid() && Advanced(from) && from <= data && ItemsSoFar(buf[..], s, depth, from, data, items)
        decreases buf.Length - data
      {
        ghost var b0, rest, at := buf[..], Rest(), data;
        var v := DecodeValue(depth + 1);
        if v.None? {
          ItemsStop(b0, s, depth, from, at, items);
          return;
        }
        ghost var end := data;
        RestMoved(b0, buf[..], at, end);
        var ok, last := Follow(']', rest, end - at);
        if !ok {
          ItemsStop(b0, s, depth, from, at, items);
          return;
        }
        ItemsMore(b0, buf[..], s, depth, from, at, end, data, items, v.value);
        items := items + [v.value];
        if last {
          return Some(items);
        }
      }
    }

    /** `decode_object` at an opening brace */
    method DecodeObject(depth: nat) returns (r: Option<RValue>)
      requires Valid() && buf[data] == '{'
      modifies this`data, buf
      ensures Valid() && Advanced(old(data))
      ensures old(Rest()) != "" && old(Rest())[0] == '{'
      ensures Decoded(JsonText.DecodeObject(old(Rest()), depth), r, old(data))
      decreases buf.Length - data, 0
    {
      hide JsonText.DecodeValue, Meaning, Inside, JsonText.DecodeMembers, MembersInside, MembersMeaning, Skip, Rest;
      ghost var s, from := Rest(), data;
      FirstOfRest();
      r := None;
      Whole(s);
      StepOver(s, 0);
      if depth > MAX_DEPTH { return; }
      ghost var k := SkipIn(s, 1);
      k := k + 1;
      if buf[data] == '}' {
        StepOver(s, k);
        NothingInside(buf[..], from, data);
        r := Some(RObject([]));
      } else {
        var members := DecodeMembers(depth);
        if members.Some? {
          MembersWidened(buf[..], members.value, from + k, from, data);
          r := Some(RObject(members.value));
        }
      }
    }

    /** The key, unescaped in place, and the colon. */
    method DecodeKey() returns (r: Option<(nat, nat)>)
      requires Valid()
      modifies this`data, buf
      ensures Valid() && Advanced(old(data))
      ensures var spec := JsonText.DecodeKey(old(Rest()));
              && r.Some? == spec.Some?
              && (r.Some? ==>
                    && data == old(data) + spec.value.n && old(data) <= r.value.0 <= r.value.1 <= data
                    && Rest() == old(Rest())[spec.value.n..]
                    && buf[r.value.0..r.value.1] == spec.value.value)
    {
      hide JsonText.DecodeString, Skip, SliceText, Rest, JsonText.DecodeKey, SliceOk;
      ghost var s := Rest();
      var t := DecodeRawKey();
      if t.None? {
        NoKey(s);
        return None;
      }
      KeyIs(s);
      ghost var n := JsonText.DecodeString(s).value.n;
      var colon; ghost var k;
      colon, k := SkipColon(s, n);
      if !colon { return None; }
      var keyEnd := Unescaped(t.value.0, t.value.1);
      ghost var j := SkipIn(s, n + k + 1);
      r := Some((t.value.0, keyEnd));
    }

    /** The colon behind a key. */
    method SkipColon(ghost s: string, ghost n: nat) returns (colon: bool, ghost k: nat)
      requires Valid() && n <= |s| && Rest() == s[n..]
      modifies this`data
      ensures Valid() && k == Skip(s[n..]) && n + k <= |s| && colon == (n + k < |s| && s[n + k] == ':')
      ensures data == old(data) + if colon then k + 1 else k
      ensures colon ==> Rest() == s[n + k + 1..]
    {
      hide Skip;
      k := SkipIn(s, n);
      colon := buf[data] == ':';
      if colon { StepOver(s, n + k); }
    }

    /** `decode_string`, and where the text goes on. */
    method DecodeRawKey() returns (r: Option<(nat, nat)>)
      requires Valid()
      modifies this`data, buf
      ensures Valid() && Advanced(old(data))
      ensures var spec := JsonText.DecodeString(old(Rest()));
              && r.Some? == spec.Some?
              && (r.Some? ==>
                    && data == old(data) + spec.value.n && old(data) < r.value.0 <= r.value.1 < data
                    && Rest() == old(Rest())[spec.value.n..]
                    && SliceOk(buf[..], r.value.0, r.value.1)
                    && SliceText(buf[..], r.value.0, r.value.1) == spec.value.value)
    {
      hide JsonText.DecodeString, SliceText, SliceOk;
      ghost var from, b0 := data, buf[..];
      r := DecodeString();
      if r.Some? {
        RestMoved(b0, buf[..], from, data);
        SliceBound(buf[..], r.value.0, r.value.1);
      }
    }

    /** `t.s()` for a string before the parser's position. */
    method Unescaped(start: nat, end: nat) returns (end1: nat)
      requires Valid() && end < data && SliceOk(buf[..], start, end)
      modifies buf
      ensures Valid() && Rest() == old(Rest())
      ensures forall k :: 0 <= k < buf.Length && !(start - 1 <= k < end) ==> buf[k] == old(buf[k])
      ensures start <= end1 <= end && buf[start..end1] == SliceText(old(buf[..]), start, end)
    {
      hide SliceText;
      var t := new StringValue(buf, start, end);
      t.Unescape();
      end1 := t.end;
    }

    method DecodeMember(depth: nat) returns (r: Option<RMember>)
      requires Valid()
      modifies this`data, buf
      ensures Valid() && Advanced(old(data))
      ensures var spec := JsonText.DecodeMember(old(Rest()), depth);
              && r.Some? == spec.Some?
              && (r.Some? ==>
                    && data == old(data) + spec.value.n
                    && MemberInside(buf[..], r.value, old(data), data)
                    && MemberMeaning(buf[..], r.value, old(data), data) == spec.value.value)
      decreases buf.Length - data, 2
    {
      hide JsonText.DecodeValue, Meaning, Inside, JsonText.DecodeKey;
      ghost var s, from := Rest(), data;
      r := None;
      var key := DecodeKey();
      if key.None? { return; }
      ghost var b0, at := buf[..], data;
      var v := DecodeValue(depth + 1);
      if v.None? { return; }
      r := Some(RMember(key.value.0, key.value.1, v.value));
      MemberRead(b0, buf[..], r.value, from, at, data);
    }

    /** The loop of `decode_object`. */
    method DecodeMembers(depth: nat) returns (r: Option<seq<RMember>>)
      requires Valid()
      modifies this`data, buf
      ensures Valid() && Advanced(old(data))
      ensures var spec := JsonText.DecodeMembers(old(Rest()), depth);
              && r.Some? == spec.Some?
              && (r.Some? ==>
                    && data == old(data) + spec.value.n
                    && MembersInside(buf[..], r.value, old(data), data)
                    && MembersMeaning(buf[..], r.value, old(data), data) == spec.value.value)
      decreases buf.Length - data, 3
    {
      hide JsonText.DecodeMember, MemberMeaning, MemberInside, JsonText.DecodeMembers, MembersInside, MembersMeaning,
           Skip, AfterItem, MembersSoFar;
      ghost var s, from := Rest(), data;
      var members: seq<RMember> := [];
      NoMembers(buf[..], s, depth, from);
      r := None;
      while true
        invariant Valid() && Advanced(from) && from <= data && MembersSoFar(buf[..], s, depth, from, data, members)
        decreases buf.Length - data
      {
        ghost var b0, rest, at := buf[..], Rest(), data;
        var m := DecodeMember(depth);
        if m.None? {
          MembersStop(b0, s, depth, from, at, members);
          return;
        }
        ghost var end := data;
        RestMoved(b0, buf[..], at, end);
        var ok, last := Follow('}', rest, end - at);
        if !ok {
          MembersStop(b0, s, depth, from, at, members);
          return;
        }
        MembersMore(b0, buf[..], s, depth, from, at, end, data, members, m.value);
        members := members + [m.value];
        if last {
          return Some(members);
        }
      }
    }

    /** `parse` */
    method Parse() returns (r: Option<RValue>)
      requires Valid() && data == 0
      modifies this`data, buf
      ensures Valid()
      ensures var spec := Load(old(Rest()));
              && r.Some? == spec.Some?
              && (r.Some? ==> Inside(buf[..], r.value, 0, buf.Length) && Meaning(buf[..], r.value, 0, buf.Length) == spec.value)
    {
      hide JsonText.DecodeValue, Meaning, Inside, Skip, Rest, Load;
      ghost var s := Rest();
      FirstOfRest();
      Whole(s);
      LoadIs(s);
      ghost var at := SkipIn(s, 0);
      r := DecodeTop(s, at);
      if r.Some? {
        ghost var j := SkipIn(s, data);
        if buf[data] != NUL { r := None; }
      }
    }

    method DecodeTop(ghost s: string, ghost at: nat) returns (r: Option<RValue>)
      requires Valid() && data == at <= |s| && |s| == buf.Length - 1 && Rest() == s[at..]
      modifies this`data, buf
      ensures Valid()
      ensures var spec := JsonText.DecodeValue(s[at..], 0);
              && r.Some? == spec.Some?
              && (r.Some? ==>
                    && data == at + spec.value.n <= |s| && Rest() == s[data..]
                    && Inside(buf[..], r.value, 0, buf.Length)
                    && Meaning(buf[..], r.value, 0, buf.Length) == spec.value.value)
    {
      hide JsonText.DecodeValue, Meaning, Inside, Rest;
      ghost var b0 := buf[..];
      FirstOfRest();
      r := DecodeValue(0);
      if r.Some? {
        FirstOfRest();
        RestMoved(b0, buf[..], at, data);
        Twice(s, at, data - at);
        Undisturbed(buf[..], buf[..], r.value, at, data, 0, buf.Length);
      }
    }
  }

  /** `load`: the text is copied and a NUL put behind it. */
  method LoadCopy(text: string) returns (r: Option<RValue>, buf: array<char>)
    ensures fresh(buf)
    ensures var spec := Load(text);
            && r.Some? == spec.Some?
            && (r.Some? ==> Inside(buf[..], r.value, 0, buf.Length) && Meaning(buf[..], r.value, 0, buf.Length) == spec.value)
  {
    hide Load, Meaning, Inside;
    buf := new char[|text| + 1](i requires 0 <= i <= |text| => if i < |text| then text[i] else NUL);
    var p := new Parser(buf);
    assert p.Rest() == text;
    r := p.Parse();
  }


  // ---------------------------------------------------------------------------------------------
  // White space

  ghost predicate Skipping(b: seq<char>, s: string, from: nat, data: nat) {
    && from <= data < |b| && data - from <= |s| && b[data..|b| - 1] == s[data - from..]
    && Skip(s) == data - from + Skip(s[data - from..])
  }

  lemma SkippingStart(b: seq<char>, s: string, from: nat)
    requires from < |b| && s == b[from..|b| - 1]
    ensures Skipping(b, s, from, from)
  {
    hide Skip;
    assert s[0..] == s;
  }

  lemma SkippingMore(b: seq<char>, s: string, from: nat, data: nat)
    requires Skipping(b, s, from, data) && b[|b| - 1] == NUL && IsSpace(b[data])
    ensures data + 1 < |b| && Skipping(b, s, from, data + 1)
  {
    var n := data - from;
    var rest := s[n..];
    assert rest[0] == b[data] && rest[1..] == s[n + 1..];
    assert b[data + 1..|b| - 1] == b[data..|b| - 1][1..];
    assert Skip(rest) == 1 + Skip(rest[1..]);
  }

  lemma SkippingDone(b: seq<char>, s: string, from: nat, data: nat)
    requires Skipping(b, s, from, data) && !IsSpace(b[data])
    ensures data == from + Skip(s) && b[data..|b| - 1] == s[Skip(s)..]
  {
    hide Skip;
    NoSpace(s[data - from..], b[data]);
    if data < |b| - 1 { assert s[data - from..][0] == b[data]; }
  }

  lemma NoSpace(s: string, c: char)
    requires !IsSpace(c) && (s != "" ==> s[0] == c)
    ensures Skip(s) == 0
  {
  }

  lemma ScanStep(s: string)
    ensures s == "" || s[0] == NUL ==> Scan(s) == None
    ensures s != "" && s[0] == '"' ==> Scan(s) == Some(0)
    ensures s != "" && s[0] == '\\' ==> Scan(s) == (var n := EscapeLength(s); if n == 0 then None else Shift(n, Scan(s[n..])))
    ensures s != "" && s[0] != NUL && s[0] != '"' && s[0] != '\\' ==> Scan(s) == Shift(1, Scan(s[1..]))
  {
    hide EscapeLength;
  }

  predicate HasBackslash(b: seq<char>, lo: nat, hi: nat)
    requires lo <= hi <= |b|
  {
    '\\' in b[lo..hi]
  }

  lemma NonePassed(b: seq<char>, lo: nat)
    requires lo <= |b|
    ensures !HasBackslash(b, lo, lo)
  {
  }

  /** What one round of the scan has passed contains a backslash exactly when it begins with one. */
  lemma Passed(b: seq<char>, lo: nat, mid: nat, k: nat)
    requires lo <= mid && 0 < k && mid + k <= |b| && (b[mid] != '\\' ==> k == 1)
    ensures HasBackslash(b, lo, mid + k) <==> HasBackslash(b, lo, mid) || b[mid] == '\\'
  {
    assert b[lo..mid + k] == b[lo..mid] + b[mid..mid + k];
    assert b[mid..mid + k][0] == b[mid];
  }

  /** What the scan knows at `data`: the contents go on there if they go on at all. */
  ghost predicate Scanning(b: seq<char>, s: string, start: nat, data: nat, escaping: bool) {
    && start <= data < |b| && data - start <= |s| && b[data..|b| - 1] == s[data - start..]
    && Scan(s) == Shift(data - start, Scan(s[data - start..]))
    && escaping == HasBackslash(b, start, data)
  }

  lemma ScanningStart(b: seq<char>, s: string, start: nat)
    requires start < |b| && s == b[start..|b| - 1]
    ensures Scanning(b, s, start, start, false)
  {
    hide Scan;
    NonePassed(b, start);
    assert s[0..] == s;
  }

  lemma ScanningMore(b: seq<char>, s: string, start: nat, data: nat, escaping: bool, k: nat)
    requires Scanning(b, s, start, data, escaping)
    requires var rest := b[data..|b| - 1];
             && k <= |rest| && (k == 0 ==> Scan(rest) == None)
             && (k > 0 ==> Scan(rest) == Shift(k, Scan(rest[k..])) && (b[data] != '\\' ==> k == 1))
    ensures k == 0 ==> Scan(s) == None
    ensures k > 0 ==> data + k < |b| && Scanning(b, s, start, data + k, escaping || b[data] == '\\')
  {
    hide Scan, HasBackslash;
    var rest := b[data..|b| - 1];
    if k > 0 {
      Passed(b, start, data, k);
      assert rest[k..] == b[data + k..|b| - 1];
      assert s[data - start..][k..] == s[data + k - start..];
    }
  }

  lemma ScanningDone(b: seq<char>, s: string, start: nat, data: nat, escaping: bool)
    requires Scanning(b, s, start, data, escaping) && data < |b| - 1 && b[data] == '"'
    ensures Scan(s) == Some(data - start) && escaping == HasBackslash(b, start, data)
  {
    hide HasBackslash;
    ScanStep(s[data - start..]);
    assert s[data - start..][0] == b[data];
  }

  lemma StringStarts(s: string)
    ensures s == "" || s[0] != '"' || Scan(s[1..]) == None ==> JsonText.DecodeString(s) == None
  {
    hide Scan;
  }

  /** The contents between the quotes. */
  lemma StringClosed(b: seq<char>, s: string, start: nat, end: nat)
    requires 0 < start <= end < |b| && s == b[start - 1..|b| - 1] && s[0] == '"'
    requires Scan(s[1..]) == Some(end - start)
    ensures end < |b| - 1 && WellEscaped(b[start..end])
    ensures JsonText.DecodeString(s) == Some(Read(Unescape(b[start..end]), end - start + 2))
  {
    hide Scan, Unescape, WellEscaped;
    assert end - start < |s[1..]|;
    ScanWell(s[1..]);
    assert s[1..][..end - start] == b[start..end];
  }

  /** The flag tells whether the contents have to be unescaped. */
  lemma StringRead(b: seq<char>, c: seq<char>, start: nat, end: nat)
    requires 0 < start <= end < |b| == |c| && WellEscaped(b[start..end])
    requires forall k :: start <= k < end ==> b[k] == c[k]
    requires c[start - 1] != NUL <==> '\\' in b[start..end]
    ensures SliceOk(c, start, end) && SliceText(c, start, end) == Unescape(b[start..end])
  {
    hide WellEscaped, Unescape;
    assert b[start..end] == c[start..end];
    if c[start - 1] == NUL { UnescapePlain(b[start..end]); }
  }

  // ---------------------------------------------------------------------------------------------
  // Numbers

  /** What is known after `data - start` characters of a number. */
  ghost predicate Counting(b: seq<char>, s: string, start: nat, data: nat, state: NumberState) {
    && start <= data < |b| && s == b[start..|b| - 1]
    && NumberLength(s, Minus) == Shift(data - start, NumberLength(b[data..|b| - 1], state))
  }

  lemma CountingStart(b: seq<char>, s: string, start: nat)
    requires start < |b| && s == b[start..|b| - 1]
    ensures Counting(b, s, start, start, Minus)
  {
    hide NumberLength;
  }

  lemma CountingEnd(b: seq<char>, s: string, start: nat, data: nat, state: NumberState)
    requires Counting(b, s, start, data, state) && b[|b| - 1] == NUL && !state.Invalid?
    ensures !InNumber(b[data]) && Accepting(state) ==>
              data - start <= |s| && JsonText.DecodeNumber(s) == Some(Read(Number(s[..data - start]), data - start))
    ensures !InNumber(b[data]) && !Accepting(state) ==> JsonText.DecodeNumber(s) == None
    ensures InNumber(b[data]) ==> data < |b| - 1
  {
    hide NumberLength;
    var rest := b[data..|b| - 1];
    if rest != "" { assert rest[0] == b[data]; }
    if !InNumber(b[data]) { NumberEnd(rest, state); }
  }

  lemma NumberEnd(rest: string, state: NumberState)
    requires (rest == "" || !InNumber(rest[0])) && !state.Invalid?
    ensures NumberLength(rest, state) == if Accepting(state) then Some(0) else None
  {
  }

  lemma CountingMore(b: seq<char>, s: string, start: nat, data: nat, state: NumberState)
    requires Counting(b, s, start, data, state) && data < |b| - 1 && InNumber(b[data])
    ensures Counting(b, s, start, data + 1, NumberStep(state, b[data]))
  {
    var rest := b[data..|b| - 1];
    assert rest[0] == b[data] && rest[1..] == b[data + 1..|b| - 1];
  }

  lemma CountingInvalid(b: seq<char>, s: string, start: nat, data: nat)
    requires Counting(b, s, start, data, Invalid)
    ensures JsonText.DecodeNumber(s) == None
  {
  }

  /** The states in which the reader runs over digits without looking at its tables. */
  predicate DigitLoop(s: NumberState) {
    s.InDigits? || s.DigitsAfterPoints? || s.DigitsAfterE? || s.Invalid?
  }

  lemma AfterDigit(s: NumberState, c: char)
    requires '1' <= c <= '9' && exists s0 :: s == NumberStep(s0, c)
    ensures DigitLoop(s)
  {
  }

  lemma SameState(s: NumberState, c: char)
    requires '0' <= c <= '9' && DigitLoop(s)
    ensures NumberStep(s, c) == s
  {
  }

  // ---------------------------------------------------------------------------------------------
  // Values

  lemma ValueCases(s: string, depth: nat, c: char)
    requires s != "" ==> s[0] == c
    requires s == "" ==> c == NUL
    ensures JsonText.DecodeValue(s, depth) ==
            if c == '[' then JsonText.DecodeList(s, depth + 1)
            else if c == '{' then JsonText.DecodeObject(s, depth + 1)
            else if c == '"' then
              var t := JsonText.DecodeString(s);
              if t.None? then None else Some(Read(Str(t.value.value), t.value.n))
            else if c == 't' then (if Word(s, "true") then Some(Read(True, 4)) else None)
            else if c == 'f' then (if Word(s, "false") then Some(Read(False, 5)) else None)
            else if c == 'n' then (if Word(s, "null") then Some(Read(Null, 4)) else None)
            else JsonText.DecodeNumber(s)
    ensures c == '[' || c == '{' ==> s != ""
  {
    hide JsonText.DecodeList, JsonText.DecodeObject, JsonText.DecodeString;
  }

  lemma NotWord(b: seq<char>, data: nat, word: string, k: nat)
    requires k < |word| && data + k < |b| && b[data + k] != word[k]
    ensures !Word(b[data..|b| - 1], word)
  {
    var s := b[data..|b| - 1];
    if |word| <= |s| { assert s[..|word|][k] == b[data + k]; }
  }

  lemma KeyIs(s: string)
    requires JsonText.DecodeString(s).Some?
    ensures var t := JsonText.DecodeString(s).value;
            var k := t.n + Skip(s[t.n..]);
            JsonText.DecodeKey(s)
            == if k == |s| || s[k] != ':' then None else Some(Read(t.value, k + 1 + Skip(s[k + 1..])))
  {
    hide JsonText.DecodeString, Skip;
  }

  lemma SliceBound(b: seq<char>, start: nat, end: nat)
    requires SliceOk(b, start, end)
    ensures 0 < start <= end < |b|
  {
  }

  lemma NoKey(s: string)
    requires JsonText.DecodeString(s).None?
    ensures JsonText.DecodeKey(s) == None
  {
    hide JsonText.DecodeString, Skip;
  }

  lemma LoadIs(s: string)
    ensures var k := Skip(s);
            var r := JsonText.DecodeValue(s[k..], 0);
            && (r.None? ==> Load(s) == None)
            && (r.Some? ==> Load(s) == AtEnd(s, k + r.value.n, r.value.value))
  {
    hide Skip, JsonText.DecodeValue, AtEnd;
  }

  lemma StringMeaning(b: seq<char>, start: nat, end: nat, from: nat, data: nat)
    requires SliceOk(b, start, end) && from < start && end < data <= |b|
    ensures Inside(b, RString(start, end), from, data)
    ensures Meaning(b, RString(start, end), from, data) == Str(SliceText(b, start, end))
  {
  }

  lemma Literals(b: seq<char>, lo: nat, hi: nat)
    ensures Inside(b, RTrue, lo, hi) && Meaning(b, RTrue, lo, hi) == True
    ensures Inside(b, RFalse, lo, hi) && Meaning(b, RFalse, lo, hi) == False
    ensures Inside(b, RNull, lo, hi) && Meaning(b, RNull, lo, hi) == Null
  {
  }

  lemma Whole(s: string)
    ensures s[0..] == s
  {
  }

  lemma Twice(s: string, n: nat, k: nat)
    requires n <= |s| && k <= |s[n..]|
    ensures s[n..][k..] == s[n + k..]
  {
  }

  /** What has not been read is the rest of what had not been read before. */
  lemma RestMoved(b: seq<char>, c: seq<char>, at: nat, end: nat)
    requires at <= end < |b| == |c| && forall k :: end <= k < |b| ==> b[k] == c[k]
    ensures c[end..|c| - 1] == b[at..|b| - 1][end - at..]
  {
  }

  lemma NothingInside(b: seq<char>, lo: nat, hi: nat)
    ensures Inside(b, RList([]), lo, hi) && Meaning(b, RList([]), lo, hi) == List([])
    ensures Inside(b, RObject([]), lo, hi) && Meaning(b, RObject([]), lo, hi) == Object([])
  {
  }

  lemma Widened(b: seq<char>, items: seq<RValue>, lo1: nat, lo: nat, hi: nat)
    requires lo <= lo1 && hi <= |b| && AllInside(b, items, lo1, hi)
    ensures Inside(b, RList(items), lo, hi)
    ensures Meaning(b, RList(items), lo, hi) == List(MeaningOf(b, items, lo1, hi))
  {
    hide AllInside, MeaningOf;
    AllUndisturbed(b, b, items, lo1, hi, lo, hi);
  }

  lemma MembersWidened(b: seq<char>, members: seq<RMember>, lo1: nat, lo: nat, hi: nat)
    requires lo <= lo1 && hi <= |b| && MembersInside(b, members, lo1, hi)
    ensures Inside(b, RObject(members), lo, hi)
    ensures Meaning(b, RObject(members), lo, hi) == Object(MembersMeaning(b, members, lo1, hi))
  {
    hide MembersInside, MembersMeaning;
    MembersUndisturbed(b, b, members, lo1, hi, lo, hi);
  }

  // ---------------------------------------------------------------------------------------------
  // Lists

  function PrependAll<T>(vs: seq<T>, n: nat, r: Option<Read<seq<T>>>): Option<Read<seq<T>>> {
    if r.None? then None else Some(Read(vs + r.value.value, n + r.value.n))
  }

  /** The items read so far are the first ones of the list. */
  ghost predicate ItemsSoFar(b: seq<char>, s: string, depth: nat, from: nat, data: nat, items: seq<RValue>) {
    && from <= data < |b| && AllInside(b, items, from, data)
    && JsonText.DecodeItems(s, depth)
       == PrependAll(MeaningOf(b, items, from, data), data - from, JsonText.DecodeItems(b[data..|b| - 1], depth))
  }

  lemma NoItems(b: seq<char>, s: string, depth: nat, from: nat)
    requires from < |b| && s == b[from..|b| - 1]
    ensures ItemsSoFar(b, s, depth, from, from, [])
  {
    hide JsonText.DecodeItems;
    var r := JsonText.DecodeItems(s, depth);
    if r.Some? { assert [] + r.value.value == r.value.value; }
  }

  lemma ItemsStop(b: seq<char>, s: string, depth: nat, from: nat, at: nat, items: seq<RValue>)
    requires ItemsSoFar(b, s, depth, from, at, items)
    requires var rest := b[at..|b| - 1];
             var v := JsonText.DecodeValue(rest, depth + 1);
             v.Some? ==> AfterItem(rest, v.value.n, ']').Wrong?
    ensures JsonText.DecodeItems(s, depth) == None
  {
    hide JsonText.DecodeValue, AfterItem, AllInside, MeaningOf;
  }

  lemma ItemsMore(b0: seq<char>, b: seq<char>, s: string, depth: nat, from: nat, at: nat, end: nat, next: nat,
                  items: seq<RValue>, v: RValue)
    requires ItemsSoFar(b0, s, depth, from, at, items) && |b| == |b0| && at <= end <= next < |b|
    requires (forall k :: 0 <= k < at ==> b[k] == b0[k]) && (forall k :: end <= k < |b| ==> b[k] == b0[k])
    requires Inside(b, v, at, end)
    requires JsonText.DecodeValue(b0[at..|b| - 1], depth + 1) == Some(Read(Meaning(b, v, at, end), end - at))
    requires var a := AfterItem(b0[at..|b| - 1], end - at, ']');
             !a.Wrong? && a.n == next - at
    ensures AllInside(b, items + [v], from, next)
    ensures AfterItem(b0[at..|b| - 1], end - at, ']').More? ==> ItemsSoFar(b, s, depth, from, next, items + [v])
    ensures AfterItem(b0[at..|b| - 1], end - at, ']').End? ==>
              JsonText.DecodeItems(s, depth) == Some(Read(MeaningOf(b, items + [v], from, next), next - from))
  {
    hide JsonText.DecodeValue, AfterItem, AllInside, MeaningOf, Inside, Meaning, JsonText.DecodeItems;
    var rest := b0[at..|b| - 1];
    AllUndisturbed(b0, b, items, from, at, from, next);
    Undisturbed(b, b, v, at, end, from, next);
    ItemAppended(b, items, v, from, next);
    RestMoved(b0, b, at, next);
    ItemUnfolded(rest, depth, Meaning(b, v, at, end), end - at);
    var r := JsonText.DecodeItems(b[next..|b| - 1], depth);
    Joined(MeaningOf(b0, items, from, at), Meaning(b, v, at, end), at - from, next - at, r);
  }

  lemma ItemUnfolded(rest: string, depth: nat, v: Json, n: nat)
    requires JsonText.DecodeValue(rest, depth + 1) == Some(Read(v, n)) && n <= |rest|
    ensures var a := AfterItem(rest, n, ']');
            && (a.End? ==> JsonText.DecodeItems(rest, depth) == Some(Read([v], a.n)))
            && (a.More? ==> a.n <= |rest| && JsonText.DecodeItems(rest, depth)
                                              == PrependAll([v], a.n, JsonText.DecodeItems(rest[a.n..], depth)))
  {
    hide JsonText.DecodeValue, AfterItem;
  }

  lemma Joined<T>(vs: seq<T>, v: T, n: nat, k: nat, r: Option<Read<seq<T>>>)
    ensures PrependAll(vs, n, PrependAll([v], k, r)) == PrependAll(vs + [v], n + k, r)
    ensures PrependAll(vs, n, Some(Read([v], k))) == Some(Read(vs + [v], n + k))
  {
    if r.Some? { assert vs + ([v] + r.value.value) == vs + [v] + r.value.value; }
  }

  // ---------------------------------------------------------------------------------------------
  // Objects

  lemma MemberRead(b0: seq<char>, b: seq<char>, m: RMember, from: nat, at: nat, end: nat)
    requires |b| == |b0| && from <= m.keyStart <= m.keyEnd <= at <= end <= |b|
    requires (forall k :: 0 <= k < at ==> b[k] == b0[k]) && Inside(b, m.value, at, end)
    ensures MemberInside(b, m, from, end)
    ensures MemberMeaning(b, m, from, end) == Member(b0[m.keyStart..m.keyEnd], Meaning(b, m.value, at, end))
  {
    hide Inside, Meaning;
    Undisturbed(b, b, m.value, at, end, from, end);
    assert b[m.keyStart..m.keyEnd] == b0[m.keyStart..m.keyEnd];
  }

  ghost predicate MembersSoFar(b: seq<char>, s: string, depth: nat, from: nat, data: nat, members: seq<RMember>) {
    && from <= data < |b| && MembersInside(b, members, from, data)
    && JsonText.DecodeMembers(s, depth)
       == PrependAll(MembersMeaning(b, members, from, data), data - from, JsonText.DecodeMembers(b[data..|b| - 1], depth))
  }

  lemma NoMembers(b: seq<char>, s: string, depth: nat, from: nat)
    requires from < |b| && s == b[from..|b| - 1]
    ensures MembersSoFar(b, s, depth, from, from, [])
  {
    hide JsonText.DecodeMembers;
    var r := JsonText.DecodeMembers(s, depth);
    if r.Some? { assert [] + r.value.value == r.value.value; }
  }

  lemma MembersStop(b: seq<char>, s: string, depth: nat, from: nat, at: nat, members: seq<RMember>)
    requires MembersSoFar(b, s, depth, from, at, members)
    requires var rest := b[at..|b| - 1];
             var m := JsonText.DecodeMember(rest, depth);
             m.Some? ==> AfterItem(rest, m.value.n, '}').Wrong?
    ensures JsonText.DecodeMembers(s, depth) == None
  {
    hide JsonText.DecodeMember, AfterItem, MembersInside, MembersMeaning;
  }

  lemma MembersMore(b0: seq<char>, b: seq<char>, s: string, depth: nat, from: nat, at: nat, end: nat, next: nat,
                    members: seq<RMember>, m: RMember)
    requires MembersSoFar(b0, s, depth, from, at, members) && |b| == |b0| && at <= end <= next < |b|
    requires (forall k :: 0 <= k < at ==> b[k] == b0[k]) && (forall k :: end <= k < |b| ==> b[k] == b0[k])
    requires MemberInside(b, m, at, end)
    requires JsonText.DecodeMember(b0[at..|b| - 1], depth) == Some(Read(MemberMeaning(b, m, at, end), end - at))
    requires var a := AfterItem(b0[at..|b| - 1], end - at, '}');
             !a.Wrong? && a.n == next - at
    ensures MembersInside(b, members + [m], from, next)
    ensures AfterItem(b0[at..|b| - 1], end - at, '}').More? ==> MembersSoFar(b, s, depth, from, next, members + [m])
    ensures AfterItem(b0[at..|b| - 1], end - at, '}').End? ==>
              JsonText.DecodeMembers(s, depth) == Some(Read(MembersMeaning(b, members + [m], from, next), next - from))
  {
    hide JsonText.DecodeMember, AfterItem, MembersInside, MembersMeaning, MemberInside, MemberMeaning,
         JsonText.DecodeMembers;
    var rest := b0[at..|b| - 1];
    MembersUndisturbed(b0, b, members, from, at, from, next);
    MemberUndisturbed(b, b, m, at, end, from, next);
    MemberAppended(b, members, m, from, next);
    RestMoved(b0, b, at, next);
    MemberUnfolded(rest, depth, MemberMeaning(b, m, at, end), end - at);
    var r := JsonText.DecodeMembers(b[next..|b| - 1], depth);
    Joined(MembersMeaning(b0, members, from, at), MemberMeaning(b, m, at, end), at - from, next - at, r);
  }

  lemma MemberUnfolded(rest: string, depth: nat, m: Member, n: nat)
    requires JsonText.DecodeMember(rest, depth) == Some(Read(m, n)) && n <= |rest|
    ensures var a := AfterItem(rest, n, '}');
            && (a.End? ==> JsonText.DecodeMembers(rest, depth) == Some(Read([m], a.n)))
            && (a.More? ==> a.n <= |rest| && JsonText.DecodeMembers(rest, depth)
                                              == PrependAll([m], a.n, JsonText.DecodeMembers(rest[a.n..], depth)))
  {
    hide JsonText.DecodeMember, AfterItem;
  }
}
