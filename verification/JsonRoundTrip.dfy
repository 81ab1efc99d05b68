/** Reading back what was written. */
module JsonRoundTrip {
  import opened Wrappers
  import opened JsonText
  import JsonReader
  import JsonWriter

  /** Line breaks and indentation are white space to the reader. */
  predicate FormatOk(f: Format) {
    f.indent <= 0 || IsSpace(f.separator)
  }

  ghost predicate IsInt(text: string) {
    exists n: int :: text == IntText(n)
  }

  /** Every number in the value is an integer as it is written. */
  ghost predicate Integers(v: Json)
    decreases v, 0
  {
    match v
    case Number(text) => IsInt(text)
    case List(items) => AllIntegers(items)
    case Object(members) => AllIntegerMembers(members)
    case _ => true
  }

  ghost predicate AllIntegers(items: seq<Json>)
    decreases items, 0
  {
    items == [] || (Integers(items[0]) && AllIntegers(items[1..]))
  }

  ghost predicate AllIntegerMembers(members: seq<Member>)
    decreases members, 0
  {
    members == [] || (Integers(members[0].value) && AllIntegerMembers(members[1..]))
  }

  /** The depth check of the reader: a container one level further in costs two. */
  predicate Fits(v: Json, depth: nat)
    decreases v, 0
  {
    match v
    case List(items) => depth + 1 <= MAX_DEPTH && AllFit(items, depth + 2)
    case Object(members) => depth + 1 <= MAX_DEPTH && AllMembersFit(members, depth + 2)
    case _ => true
  }

  predicate AllFit(items: seq<Json>, depth: nat)
    decreases items, 0
  {
    items == [] || (Fits(items[0], depth) && AllFit(items[1..], depth))
  }

  predicate AllMembersFit(members: seq<Member>, depth: nat)
    decreases members, 0
  {
    members == [] || (Fits(members[0].value, depth) && AllMembersFit(members[1..], depth))
  }

  function Max(a: nat, b: nat): nat {
    if a < b then b else a
  }

  /** How deep containers are nested. */
  function Nesting(v: Json): nat
    decreases v, 0
  {
    match v
    case List(items) => 1 + NestingOf(items)
    case Object(members) => 1 + NestingOfMembers(members)
    case _ => 0
  }

  function NestingOf(items: seq<Json>): nat
    decreases items, 0
  {
    if items == [] then 0 else Max(Nesting(items[0]), NestingOf(items[1..]))
  }

  function NestingOfMembers(members: seq<Member>): nat
    decreases members, 0
  {
    if members == [] then 0 else Max(Nesting(members[0].value), NestingOfMembers(members[1..]))
  }

  lemma {:induction false} FitsNesting(v: Json, depth: nat)
    ensures Fits(v, depth) <==> Nesting(v) == 0 || depth + 2 * Nesting(v) - 1 <= MAX_DEPTH
    decreases v, 0
  {
    if v.List? { AllFitNesting(v.items, depth + 2); }
    if v.Object? { AllMembersFitNesting(v.members, depth + 2); }
  }

  lemma {:induction false} AllFitNesting(items: seq<Json>, depth: nat)
    ensures AllFit(items, depth) <==> NestingOf(items) == 0 || depth + 2 * NestingOf(items) - 1 <= MAX_DEPTH
    decreases items, 0
  {
    if items != [] {
      FitsNesting(items[0], depth);
      AllFitNesting(items[1..], depth);
    }
  }

  lemma {:induction false} AllMembersFitNesting(members: seq<Member>, depth: nat)
    ensures AllMembersFit(members, depth)
       <==> NestingOfMembers(members) == 0 || depth + 2 * NestingOfMembers(members) - 1 <= MAX_DEPTH
    decreases members, 0
  {
    if members != [] {
      FitsNesting(members[0].value, depth);
      AllMembersFitNesting(members[1..], depth);
    }
  }

  // ---------------------------------------------------------------------------------------------
  // Pieces of text

  lemma Drop(a: string, b: string)
    ensures (a + b)[|a|..] == b && (a + b)[..|a|] == a
  {
  }

  lemma {:induction false} SkipSpaces(a: string, b: string)
    requires (forall k :: 0 <= k < |a| ==> IsSpace(a[k])) && (b == "" || !IsSpace(b[0]))
    ensures Skip(a + b) == |a|
    decreases |a|
  {
    if a == "" {
      assert a + b == b;
    } else {
      assert (a + b)[1..] == a[1..] + b;
      SkipSpaces(a[1..], b);
    }
  }

  lemma BreakSkipped(f: Format, level: nat, s: string)
    requires FormatOk(f) && (s == "" || !IsSpace(s[0]))
    ensures Skip(Break(f, level) + s) == |Break(f, level)|
  {
    hide IsSpace, Times;
    assert Times(level, 0) == 0 by { TimesZero(level); }
    forall k | 0 <= k < |Break(f, level)| ensures IsSpace(Break(f, level)[k]) { NewLine(); }
    SkipSpaces(Break(f, level), s);
  }

  lemma TimesZero(a: nat)
    ensures Times(a, 0) == 0
  {
  }

  lemma NewLine()
    ensures IsSpace('\n')
  {
  }

  /** After a value comes a comma, a closing bracket or a line break. */
  lemma BreakEnds(f: Format, level: nat, s: string)
    requires NumberEnds(s)
    ensures NumberEnds(Break(f, level) + s)
  {
    hide Times;
    if Break(f, level) == "" { assert Break(f, level) + s == s; }
  }

  lemma QuoteDecoded(s: string, post: string)
    ensures DecodeString(Quote(s) + post) == Some(Read(s, |Quote(s)|))
  {
    hide Scan, Escape, Unescape, WellEscaped;
    var t := Quote(s) + post;
    assert t[1..] == Escape(s) + "\"" + post;
    ScanEscape(s, post);
    UnescapeEscape(s);
    assert t[1..][..|Escape(s)|] == Escape(s);
  }

  /** The first character of a value tells it from white space and from the end of a container. */
  lemma FirstChar(v: Json, f: Format, level: nat)
    requires Integers(v)
    ensures Dump(v, f, level) != ""
    ensures var c := Dump(v, f, level)[0]; !IsSpace(c) && c != ']' && c != '}'
  {
    hide Escape, Break, DumpItems, DumpMembers;
    if v.Number? {
      var n: int :| v.text == IntText(n);
      IntScanned(n, "");
    }
  }

  // ---------------------------------------------------------------------------------------------
  // Values

  lemma {:induction false} DumpDecoded(v: Json, f: Format, level: nat, depth: nat, post: string)
    requires FormatOk(f) && Integers(v) && NumberEnds(post)
    ensures DecodeValue(Dump(v, f, level) + post, depth)
         == if Fits(v, depth) then Some(Read(v, |Dump(v, f, level)|)) else None
    decreases v, 0
  {
    hide DecodeItems, DecodeMembers, Dump, DecodeValue, Integers, AllIntegers, AllIntegerMembers, NumberEnds, Fits,
         DumpItems, DumpMembers, Break, AllFit, AllMembersFit, FormatOk;
    if v.List? {
      if v.items != [] { ListIntegers(v); ItemsDecoded(v.items, f, level + 1, level, depth + 1, post); }
      ListDecoded(v, f, level, depth, post);
    } else if v.Object? {
      if v.members != [] { ObjectIntegers(v); MembersDecoded(v.members, f, level + 1, level, depth + 1, post); }
      ObjectDecoded(v, f, level, depth, post);
    } else {
      SimpleDecoded(v, f, level, depth, post);
    }
  }

  lemma ListIntegers(v: Json)
    requires Integers(v) && v.List?
    ensures AllIntegers(v.items)
  {
  }

  lemma ObjectIntegers(v: Json)
    requires Integers(v) && v.Object?
    ensures AllIntegerMembers(v.members)
  {
  }

  lemma SimpleDecoded(v: Json, f: Format, level: nat, depth: nat, post: string)
    requires Integers(v) && NumberEnds(post) && !v.List? && !v.Object?
    ensures DecodeValue(Dump(v, f, level) + post, depth) == Some(Read(v, |Dump(v, f, level)|)) && Fits(v, depth)
  {
    hide DecodeString, DecodeList, DecodeObject, Escape, NumberLength;
    var t := Dump(v, f, level);
    Drop(t, post);
    if v.Number? {
      var n: int :| v.text == IntText(n);
      hide IntText;
      IntScanned(n, post);
      assert (t + post)[0] == t[0];
    } else if v.Str? {
      QuoteDecoded(v.s, post);
      assert (t + post)[0] == '"';
    } else {
      assert (t + post)[0] == t[0];
    }
  }

  lemma ListDecoded(v: Json, f: Format, level: nat, depth: nat, post: string)
    requires FormatOk(f) && v.List? && Integers(v)
    requires v.items != [] ==>
               var s := DumpItems(v.items, f, level + 1);
               DecodeItems(s + Break(f, level) + "]" + post, depth + 1)
               == if AllFit(v.items, depth + 2) then Some(Read(v.items, |s| + |Break(f, level)| + 1)) else None
    ensures DecodeValue(Dump(v, f, level) + post, depth)
         == if Fits(v, depth) then Some(Read(v, |Dump(v, f, level)|)) else None
  {
    hide Break, DumpItems, DecodeItems, Skip, AllFit, Dump, Fits;
    if v.items == [] { NoItemsDecoded(v, f, level, depth, post); } else { ItemsIn(v, f, level, depth, post); }
  }

  lemma NoItemsDecoded(v: Json, f: Format, level: nat, depth: nat, post: string)
    requires FormatOk(f) && v.List? && v.items == []
    ensures DecodeValue(Dump(v, f, level) + post, depth)
         == if Fits(v, depth) then Some(Read(v, |Dump(v, f, level)|)) else None
  {
    hide Break, DumpItems, DecodeItems, Skip, AllFit;
    var b1, b, t := Break(f, level + 1), Break(f, level), Dump(v, f, level) + post;
    EmptyItems(f, level + 1);
    TwoBreaks(f, level, "]" + post);
    assert t == "[" + (b1 + b + ("]" + post));
    ListSteps(t, depth, |b1 + b|);
    assert AllFit([], depth + 2) by { NoneToFit(depth + 2); }
  }

  lemma ItemsIn(v: Json, f: Format, level: nat, depth: nat, post: string)
    requires FormatOk(f) && v.List? && Integers(v) && v.items != []
    requires var s := DumpItems(v.items, f, level + 1);
             DecodeItems(s + Break(f, level) + "]" + post, depth + 1)
             == if AllFit(v.items, depth + 2) then Some(Read(v.items, |s| + |Break(f, level)| + 1)) else None
    ensures DecodeValue(Dump(v, f, level) + post, depth)
         == if Fits(v, depth) then Some(Read(v, |Dump(v, f, level)|)) else None
  {
    hide Break, DumpItems, DecodeItems, Skip, AllFit, Dump, DecodeValue;
    var b1, s := Break(f, level + 1), DumpItems(v.items, f, level + 1);
    var t, tail := Dump(v, f, level) + post, s + Break(f, level) + "]" + post;
    ListText(v, f, level, post);
    assert tail[0] != ']' && !IsSpace(tail[0]) by {
      ListIntegers(v);
      ItemsFirst(v.items, f, level + 1, Break(f, level) + "]" + post);
    }
    BreakSkipped(f, level + 1, tail);
    Drop(b1, tail);
    ListSteps(t, depth, |b1|);
  }

  lemma ListText(v: Json, f: Format, level: nat, post: string)
    requires v.List? && v.items != []
    ensures var b1, b, s := Break(f, level + 1), Break(f, level), DumpItems(v.items, f, level + 1);
            var t, tail := Dump(v, f, level) + post, s + b + "]" + post;
            && t == "[" + (b1 + tail) && t[1 + |b1|..] == tail && t[1..] == b1 + tail && tail == s + (b + "]" + post)
            && |Dump(v, f, level)| == |b1| + |s| + |b| + 2
  {
    hide Break, DumpItems;
  }

  lemma NoneToFit(depth: nat)
    ensures AllFit([], depth) && AllMembersFit([], depth)
  {
  }

  /** The reader at an opening bracket. */
  lemma ListSteps(t: string, depth: nat, k: nat)
    requires t != "" && t[0] == '[' && Skip(t[1..]) == k && 1 + k < |t|
    ensures DecodeValue(t, depth) ==
            if depth + 1 > MAX_DEPTH then None
            else if t[1 + k] == ']' then Some(Read(List([]), k + 2))
            else match DecodeItems(t[1 + k..], depth + 1)
              case None => None
              case Some(r) => Some(Read(List(r.value), 1 + k + r.n))
  {
    hide DecodeItems, Skip;
  }

  lemma EmptyItems(f: Format, level: nat)
    ensures DumpItems([], f, level) == "" && DumpMembers([], f, level) == ""
  {
  }

  lemma TwoBreaks(f: Format, level: nat, s: string)
    requires FormatOk(f) && s != "" && !IsSpace(s[0])
    ensures Skip(Break(f, level + 1) + Break(f, level) + s) == |Break(f, level + 1) + Break(f, level)|
  {
    hide IsSpace, Times;
    var a, b := Break(f, level + 1), Break(f, level);
    TimesZero(level);
    TimesZero(level + 1);
    NewLine();
    forall k | 0 <= k < |a + b| ensures IsSpace((a + b)[k]) { }
    SkipSpaces(a + b, s);
  }

  lemma ItemsFirst(items: seq<Json>, f: Format, level: nat, rest: string)
    requires items != [] && AllIntegers(items)
    ensures var t := DumpItems(items, f, level) + rest;
            t != "" && !IsSpace(t[0]) && t[0] != ']' && t[0] != '}'
  {
    hide IsSpace, Break, Dump;
    FirstChar(items[0], f, level);
    assert (DumpItems(items, f, level) + rest)[0] == Dump(items[0], f, level)[0];
  }

  lemma {:induction false} ItemsDecoded(items: seq<Json>, f: Format, level: nat, outer: nat, depth: nat, post: string)
    requires items != [] && FormatOk(f) && AllIntegers(items)
    ensures var s := DumpItems(items, f, level);
            DecodeItems(s + Break(f, outer) + "]" + post, depth)
            == if AllFit(items, depth + 1) then Some(Read(items, |s| + |Break(f, outer)| + 1)) else None
    decreases items, 0
  {
    hide Break, DumpItems, DecodeItems, Skip, Dump, DecodeValue, Fits, Integers;
    var end := Break(f, outer) + "]" + post;
    var first := Dump(items[0], f, level);
    ItemsIs(items, f, level);
    var more := MoreItems(items[1..], f, level) + end;
    assert DumpItems(items, f, level) + end == first + more;
    assert DumpItems(items, f, level) + Break(f, outer) + "]" + post == first + more;
    MoreEnds(items[1..], f, level, outer, post);
    DumpDecoded(items[0], f, level, depth + 1, more);
    if items[1..] == [] {
      assert MoreItems([], f, level) + end == end;
      BreakSkipped(f, outer, "]" + post);
      assert end == Break(f, outer) + ("]" + post);
      LastItem(first, end, items[0], depth, |Break(f, outer)|);
      assert [items[0]] == items;
      assert AllFit(items, depth + 1) == Fits(items[0], depth + 1) by { NoneToFit(depth + 1); }
    } else {
      ItemsDecoded(items[1..], f, level, outer, depth, post);
      var rest := DumpItems(items[1..], f, level) + end;
      assert rest == DumpItems(items[1..], f, level) + Break(f, outer) + "]" + post;
      ItemsFirst(items[1..], f, level, end);
      BreakSkipped(f, level, rest);
      assert more == "," + (Break(f, level) + rest);
      NextItem(first, Break(f, level), rest, items[0], depth);
      assert [items[0]] + items[1..] == items;
    }
  }

  lemma ItemsIs(items: seq<Json>, f: Format, level: nat)
    requires items != []
    ensures DumpItems(items, f, level) == Dump(items[0], f, level) + MoreItems(items[1..], f, level)
  {
    hide Dump, MoreItems;
  }

  lemma MoreEnds(items: seq<Json>, f: Format, level: nat, outer: nat, post: string)
    ensures NumberEnds(MoreItems(items, f, level) + (Break(f, outer) + "]" + post))
  {
    hide DumpItems, Break;
    if items == [] {
      BreakEnds(f, outer, "]" + post);
      assert MoreItems(items, f, level) + (Break(f, outer) + "]" + post) == Break(f, outer) + ("]" + post);
    }
  }

  /** What follows a value that ends at `n`. */
  lemma Closes(a: string, end: string, k: nat, close: char)
    requires Skip(end) == k && k < |end| && end[k] == close
    ensures AfterItem(a + end, |a|, close) == End(|a| + k + 1)
  {
    hide Skip;
    Drop(a, end);
  }

  lemma Continues(a: string, gap: string, rest: string, close: char)
    requires Skip(gap + rest) == |gap| && close != ','
    ensures AfterItem(a + ("," + (gap + rest)), |a|, close) == More(|a| + 1 + |gap|)
    ensures (a + ("," + (gap + rest)))[|a| + 1 + |gap|..] == rest
  {
    hide Skip;
    var t := a + ("," + (gap + rest));
    Drop(a, "," + (gap + rest));
    CommaNotSkipped("," + (gap + rest));
    assert t[|a| + 1..] == gap + rest;
  }

  /** A value and the closing bracket. */
  lemma LastItem(first: string, end: string, v: Json, depth: nat, k: nat)
    requires Skip(end) == k && k < |end| && end[k] == ']'
    requires DecodeValue(first + end, depth + 1)
          == if Fits(v, depth + 1) then Some(Read(v, |first|)) else None
    ensures DecodeItems(first + end, depth) == if Fits(v, depth + 1) then Some(Read([v], |first| + k + 1)) else None
  {
    hide Skip, DecodeValue, Fits, AfterItem;
    Closes(first, end, k, ']');
  }

  /** A value, a comma and more values. */
  lemma NextItem(first: string, gap: string, rest: string, v: Json, depth: nat)
    requires Skip(gap + rest) == |gap|
    requires var t := first + ("," + (gap + rest));
             DecodeValue(t, depth + 1) == if Fits(v, depth + 1) then Some(Read(v, |first|)) else None
    ensures var t := first + ("," + (gap + rest));
            DecodeItems(t, depth) ==
            if !Fits(v, depth + 1) then None else PrependItem(v, |first| + 1 + |gap|, DecodeItems(rest, depth))
  {
    hide DecodeValue, Fits, Skip, AfterItem;
    Continues(first, gap, rest, ']');
  }

  lemma CommaNotSkipped(s: string)
    requires s != "" && !IsSpace(s[0])
    ensures Skip(s) == 0
  {
  }

  // ---------------------------------------------------------------------------------------------
  // Objects

  lemma ObjectDecoded(v: Json, f: Format, level: nat, depth: nat, post: string)
    requires FormatOk(f) && v.Object? && Integers(v)
    requires v.members != [] ==>
               var s := DumpMembers(v.members, f, level + 1);
               DecodeMembers(s + Break(f, level) + "}" + post, depth + 1)
               == if AllMembersFit(v.members, depth + 2) then Some(Read(v.members, |s| + |Break(f, level)| + 1)) else None
    ensures DecodeValue(Dump(v, f, level) + post, depth)
         == if Fits(v, depth) then Some(Read(v, |Dump(v, f, level)|)) else None
  {
    hide Break, DumpMembers, DecodeMembers, Skip, AllMembersFit, Dump, Fits;
    if v.members == [] { NoMembersDecoded(v, f, level, depth, post); } else { MembersIn(v, f, level, depth, post); }
  }

  lemma NoMembersDecoded(v: Json, f: Format, level: nat, depth: nat, post: string)
    requires FormatOk(f) && v.Object? && v.members == []
    ensures DecodeValue(Dump(v, f, level) + post, depth)
         == if Fits(v, depth) then Some(Read(v, |Dump(v, f, level)|)) else None
  {
    hide Break, DumpMembers, DecodeMembers, Skip, AllMembersFit;
    var b1, b, t := Break(f, level + 1), Break(f, level), Dump(v, f, level) + post;
    EmptyItems(f, level + 1);
    TwoBreaks(f, level, "}" + post);
    assert t == "{" + (b1 + b + ("}" + post));
    ObjectSteps(t, depth, |b1 + b|);
    assert AllMembersFit([], depth + 2) by { NoneToFit(depth + 2); }
  }

  lemma MembersIn(v: Json, f: Format, level: nat, depth: nat, post: string)
    requires FormatOk(f) && v.Object? && Integers(v) && v.members != []
    requires var s := DumpMembers(v.members, f, level + 1);
             DecodeMembers(s + Break(f, level) + "}" + post, depth + 1)
             == if AllMembersFit(v.members, depth + 2) then Some(Read(v.members, |s| + |Break(f, level)| + 1)) else None
    ensures DecodeValue(Dump(v, f, level) + post, depth)
         == if Fits(v, depth) then Some(Read(v, |Dump(v, f, level)|)) else None
  {
    hide Break, DumpMembers, DecodeMembers, Skip, AllMembersFit, Dump, DecodeValue;
    var b1, s := Break(f, level + 1), DumpMembers(v.members, f, level + 1);
    var t, tail := Dump(v, f, level) + post, s + Break(f, level) + "}" + post;
    ObjectText(v, f, level, post);
    assert tail[0] != '}' && !IsSpace(tail[0]) by {
      MembersFirst(v.members, f, level + 1, Break(f, level) + "}" + post);
    }
    BreakSkipped(f, level + 1, tail);
    Drop(b1, tail);
    ObjectSteps(t, depth, |b1|);
  }

  lemma ObjectText(v: Json, f: Format, level: nat, post: string)
    requires v.Object? && v.members != []
    ensures var b1, b, s := Break(f, level + 1), Break(f, level), DumpMembers(v.members, f, level + 1);
            var t, tail := Dump(v, f, level) + post, s + b + "}" + post;
            && t == "{" + (b1 + tail) && t[1 + |b1|..] == tail && t[1..] == b1 + tail && tail == s + (b + "}" + post)
            && |Dump(v, f, level)| == |b1| + |s| + |b| + 2
  {
    hide Break, DumpMembers;
  }

  /** The reader at an opening brace. */
  lemma ObjectSteps(t: string, depth: nat, k: nat)
    requires t != "" && t[0] == '{' && Skip(t[1..]) == k && 1 + k < |t|
    ensures DecodeValue(t, depth) ==
            if depth + 1 > MAX_DEPTH then None
            else if t[1 + k] == '}' then Some(Read(Object([]), k + 2))
            else match DecodeMembers(t[1 + k..], depth + 1)
              case None => None
              case Some(r) => Some(Read(Object(r.value), 1 + k + r.n))
  {
    hide DecodeMembers, Skip;
  }

  lemma MembersFirst(members: seq<Member>, f: Format, level: nat, rest: string)
    requires members != []
    ensures var t := DumpMembers(members, f, level) + rest;
            t != "" && t[0] == '"'
  {
    hide Break, Dump, Escape;
  }

  function Gap(f: Format): string {
    if f.indent >= 0 then " " else ""
  }

  lemma KeyDecoded(key: string, f: Format, rest: string)
    requires rest != "" && !IsSpace(rest[0])
    ensures DecodeKey(Quote(key) + (":" + (Gap(f) + rest))) == Some(Read(key, |Quote(key)| + 1 + |Gap(f)|))
  {
    hide DecodeString, Quote, Skip;
    var t := Quote(key) + (":" + (Gap(f) + rest));
    QuoteDecoded(key, ":" + (Gap(f) + rest));
    Drop(Quote(key), ":" + (Gap(f) + rest));
    CommaNotSkipped(":" + (Gap(f) + rest));
    assert t[|Quote(key)| + 1..] == Gap(f) + rest;
    SkipSpaces(Gap(f), rest);
  }

  lemma {:induction false} MembersDecoded(members: seq<Member>, f: Format, level: nat, outer: nat, depth: nat, post: string)
    requires members != [] && FormatOk(f) && AllIntegerMembers(members)
    ensures var s := DumpMembers(members, f, level);
            DecodeMembers(s + Break(f, outer) + "}" + post, depth)
            == if AllMembersFit(members, depth + 1) then Some(Read(members, |s| + |Break(f, outer)| + 1)) else None
    decreases members, 0
  {
    hide Break, DumpMembers, DecodeMembers, Skip, Dump, DecodeValue, Fits, Integers, DecodeKey, Quote, Gap;
    var end := Break(f, outer) + "}" + post;
    var m := members[0];
    var key, first := Quote(m.key) + ":" + Gap(f), Dump(m.value, f, level);
    MembersIs(members, f, level);
    var more := MoreMembers(members[1..], f, level) + end;
    var t := DumpMembers(members, f, level) + end;
    assert t == key + (first + more);
    assert DumpMembers(members, f, level) + Break(f, outer) + "}" + post == t;
    FirstChar(m.value, f, level);
    assert (first + more)[0] == first[0];
    KeyDecoded(m.key, f, first + more);
    assert key + (first + more) == Quote(m.key) + (":" + (Gap(f) + (first + more)));
    MoreMembersEnd(members[1..], f, level, outer, post);
    DumpDecoded(m.value, f, level, depth + 1, more);
    if members[1..] == [] {
      assert MoreMembers([], f, level) + end == end;
      BreakSkipped(f, outer, "}" + post);
      assert end == Break(f, outer) + ("}" + post);
      LastMember(key, first, end, m, depth, |Break(f, outer)|);
      assert [m] == members;
      assert AllMembersFit(members, depth + 1) == Fits(m.value, depth + 1) by { NoneToFit(depth + 1); }
    } else {
      MembersDecoded(members[1..], f, level, outer, depth, post);
      var rest := DumpMembers(members[1..], f, level) + end;
      assert rest == DumpMembers(members[1..], f, level) + Break(f, outer) + "}" + post;
      MembersFirst(members[1..], f, level, end);
      BreakSkipped(f, level, rest);
      assert more == "," + (Break(f, level) + rest);
      NextMember(key, first, Break(f, level), rest, m, depth);
      assert [m] + members[1..] == members;
    }
  }

  lemma MembersIs(members: seq<Member>, f: Format, level: nat)
    requires members != []
    ensures DumpMembers(members, f, level)
         == Quote(members[0].key) + ":" + Gap(f) + Dump(members[0].value, f, level) + MoreMembers(members[1..], f, level)
  {
    hide Dump, MoreMembers, Quote;
  }

  lemma MoreMembersEnd(members: seq<Member>, f: Format, level: nat, outer: nat, post: string)
    ensures NumberEnds(MoreMembers(members, f, level) + (Break(f, outer) + "}" + post))
  {
    hide DumpMembers, Break;
    if members == [] {
      BreakEnds(f, outer, "}" + post);
      assert MoreMembers(members, f, level) + (Break(f, outer) + "}" + post) == Break(f, outer) + ("}" + post);
    }
  }

  lemma MemberDecoded(key: string, t: string, m: Member, depth: nat, n: nat)
    requires DecodeKey(key + t) == Some(Read(m.key, |key|)) && n <= |t|
    requires DecodeValue(t, depth + 1) == if Fits(m.value, depth + 1) then Some(Read(m.value, n)) else None
    ensures DecodeMember(key + t, depth) == if Fits(m.value, depth + 1) then Some(Read(m, |key| + n)) else None
  {
    hide DecodeValue, Fits, DecodeKey;
    Drop(key, t);
  }

  /** A member and the closing brace. */
  lemma LastMember(key: string, first: string, end: string, m: Member, depth: nat, k: nat)
    requires DecodeKey(key + (first + end)) == Some(Read(m.key, |key|))
    requires Skip(end) == k && k < |end| && end[k] == '}'
    requires DecodeValue(first + end, depth + 1)
          == if Fits(m.value, depth + 1) then Some(Read(m.value, |first|)) else None
    ensures DecodeMembers(key + (first + end), depth)
         == if Fits(m.value, depth + 1) then Some(Read([m], |key| + |first| + k + 1)) else None
  {
    hide Skip, DecodeValue, Fits, DecodeKey, DecodeMember, AfterItem;
    MemberDecoded(key, first + end, m, depth, |first|);
    assert key + (first + end) == key + first + end;
    Closes(key + first, end, k, '}');
  }

  /** A member, a comma and more members. */
  lemma NextMember(key: string, first: string, gap: string, rest: string, m: Member, depth: nat)
    requires Skip(gap + rest) == |gap|
    requires var t := first + ("," + (gap + rest));
             && DecodeKey(key + t) == Some(Read(m.key, |key|))
             && DecodeValue(t, depth + 1) == if Fits(m.value, depth + 1) then Some(Read(m.value, |first|)) else None
    ensures var t := first + ("," + (gap + rest));
            DecodeMembers(key + t, depth) ==
            if !Fits(m.value, depth + 1) then None
            else PrependMember(m, |key| + |first| + 1 + |gap|, DecodeMembers(rest, depth))
  {
    hide DecodeValue, Fits, Skip, DecodeKey, DecodeMember, AfterItem;
    var t := first + ("," + (gap + rest));
    MemberDecoded(key, t, m, depth, |first|);
    assert key + t == key + first + ("," + (gap + rest));
    Continues(key + first, gap, rest, '}');
  }

  // ---------------------------------------------------------------------------------------------
  // The round trip

  /** `load(dump(v, indent))` is `v` exactly when containers nest at most 5000 deep; deeper values are
      refused. */
  lemma LoadDump(v: Json, f: Format)
    requires FormatOk(f) && Integers(v)
    ensures Load(Dump(v, f, 0)) == if Nesting(v) <= 5000 then Some(v) else None
  {
    hide Dump, DecodeValue, Fits, Nesting, Integers, NumberEnds, Skip;
    var t := Dump(v, f, 0);
    FirstChar(v, f, 0);
    CommaNotSkipped(t);
    assert NumberEnds("") by { NothingEnds(); }
    DumpDecoded(v, f, 0, 0, "");
    assert t + "" == t && t[0..] == t;
    FitsNesting(v, 0);
    assert t[|t|..] == "";
  }

  lemma NothingEnds()
    ensures NumberEnds("")
  {
  }

  /** The same through the writer's output string and the reader's buffer. */
  method DumpThenLoad(v: Json, f: Format) returns (r: Option<JsonReader.RValue>, buf: array<char>)
    requires FormatOk(f) && Integers(v)
    ensures r.Some? <==> Nesting(v) <= 5000
    ensures r.Some? ==> JsonReader.Inside(buf[..], r.value, 0, buf.Length)
                        && JsonReader.Meaning(buf[..], r.value, 0, buf.Length) == v
  {
    hide Dump, Load, Nesting, Integers, JsonReader.Inside, JsonReader.Meaning;
    var t := new JsonWriter.Text();
    t.DumpInternal(v, f, 0);
    assert "" + Dump(v, f, 0) == Dump(v, f, 0);
    LoadDump(v, f);
    r, buf := JsonReader.LoadCopy(t.out);
  }
}
