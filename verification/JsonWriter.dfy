/** The writer: `dump_internal` appends the text of a value to one output string. */
module JsonWriter {
  import opened JsonText

  class Text {
    var out: string

    constructor ()
      ensures out == ""
    {
      out := "";
    }

    /** `escape` */
    method EscapeInto(s: string)
      modifies this
      ensures out == old(out) + Escape(s)
    {
      hide Escape, EscapeChar;
      ghost var want := out + Escape(s);
      var k := 0;
      assert s[0..] == s;
      while k < |s|
        invariant k <= |s| && out + Escape(s[k..]) == want
      {
        EscapeSplit(s, k);
        assert out + (EscapeChar(s[k]) + Escape(s[k + 1..])) == out + EscapeChar(s[k]) + Escape(s[k + 1..]);
        out := out + EscapeChar(s[k]);
        k := k + 1;
      }
      NothingEscaped();
      assert s[k..] == "";
      assert out + "" == out;
    }

    static lemma EscapeSplit(s: string, k: nat)
      requires k < |s|
      ensures Escape(s[k..]) == EscapeChar(s[k]) + Escape(s[k + 1..])
    {
      hide EscapeChar;
      assert s[k..][1..] == s[k + 1..];
    }

    static lemma NothingEscaped()
      ensures Escape("") == ""
    {
    }

    method DumpString(s: string)
      modifies this
      ensures out == old(out) + Quote(s)
    {
      hide Escape;
      ghost var before := out;
      out := out + "\"";
      EscapeInto(s);
      out := out + "\"";
      assert before + "\"" + Escape(s) + "\"" == before + Quote(s);
    }

    method Indentation(f: Format, level: nat)
      modifies this
      ensures out == old(out) + Break(f, level)
    {
      out := out + Break(f, level);
    }

    /** `dump_internal`, on a value whose numbers are already texts. */
    method DumpInternal(v: Json, f: Format, level: nat)
      modifies this
      ensures out == old(out) + Dump(v, f, level)
      decreases v, 0
    {
      hide DumpItems, DumpMembers, Break, Quote;
      ghost var before := out;
      match v
      case Null => out := out + "null";
      case False => out := out + "false";
      case True => out := out + "true";
      case Number(text) => out := out + text;
      case Str(s) => DumpString(s);
      case List(items) =>
        out := out + "[";
        Indentation(f, level + 1);
        ItemsLoop(items, f, level + 1);
        Indentation(f, level);
        out := out + "]";
        assert before + "[" + Break(f, level + 1) + DumpItems(items, f, level + 1) + Break(f, level) + "]"
            == before + ("[" + Break(f, level + 1) + DumpItems(items, f, level + 1) + Break(f, level) + "]");
      case Object(members) =>
        out := out + "{";
        Indentation(f, level + 1);
        MembersLoop(members, f, level + 1);
        Indentation(f, level);
        out := out + "}";
        assert before + "{" + Break(f, level + 1) + DumpMembers(members, f, level + 1) + Break(f, level) + "}"
            == before + ("{" + Break(f, level + 1) + DumpMembers(members, f, level + 1) + Break(f, level) + "}");
    }

    /** What the loop over the items has still to put out. */
    static function ItemsOwed(items: seq<Json>, first: bool, f: Format, level: nat): string {
      if first then DumpItems(items, f, level) else MoreItems(items, f, level)
    }

    method ItemsLoop(items: seq<Json>, f: Format, level: nat)
      modifies this
      ensures out == old(out) + DumpItems(items, f, level)
      decreases items, 0
    {
      hide DumpItems, MoreItems, Break, Dump;
      ghost var want := out + DumpItems(items, f, level);
      var first := true;
      var k := 0;
      assert items[0..] == items;
      while k < |items|
        invariant k <= |items| && out + ItemsOwed(items[k..], first, f, level) == want
      {
        ghost var o := out;
        ItemsStep(items, k, f, level);
        if !first {
          out := out + ",";
          Indentation(f, level);
          assert o + ("," + Break(f, level) + DumpItems(items[k..], f, level))
              == o + "," + Break(f, level) + DumpItems(items[k..], f, level);
        }
        first := false;
        ghost var o1 := out;
        assert o1 + DumpItems(items[k..], f, level) == want;
        DumpInternal(items[k], f, level);
        assert o1 + (Dump(items[k], f, level) + MoreItems(items[k + 1..], f, level))
            == o1 + Dump(items[k], f, level) + MoreItems(items[k + 1..], f, level);
        k := k + 1;
      }
      NoItemsOwed(first, f, level);
      assert items[k..] == [];
      assert out + "" == out;
    }

    static lemma ItemsStep(items: seq<Json>, k: nat, f: Format, level: nat)
      requires k < |items|
      ensures DumpItems(items[k..], f, level) == Dump(items[k], f, level) + MoreItems(items[k + 1..], f, level)
      ensures MoreItems(items[k..], f, level) == "," + Break(f, level) + DumpItems(items[k..], f, level)
    {
      hide Dump, Break;
      assert items[k..][1..] == items[k + 1..];
    }

    static lemma NoItemsOwed(first: bool, f: Format, level: nat)
      ensures ItemsOwed([], first, f, level) == ""
    {
    }

    static function MembersOwed(members: seq<Member>, first: bool, f: Format, level: nat): string {
      if first then DumpMembers(members, f, level) else MoreMembers(members, f, level)
    }

    method MembersLoop(members: seq<Member>, f: Format, level: nat)
      modifies this
      ensures out == old(out) + DumpMembers(members, f, level)
      decreases members, 0
    {
      hide DumpMembers, MoreMembers, Break, Dump, Quote;
      ghost var want := out + DumpMembers(members, f, level);
      var first := true;
      var k := 0;
      assert members[0..] == members;
      while k < |members|
        invariant k <= |members| && out + MembersOwed(members[k..], first, f, level) == want
      {
        ghost var o := out;
        MembersStep(members, k, f, level);
        if !first {
          out := out + ",";
          Indentation(f, level);
          assert o + ("," + Break(f, level) + DumpMembers(members[k..], f, level))
              == o + "," + Break(f, level) + DumpMembers(members[k..], f, level);
        }
        first := false;
        assert out + DumpMembers(members[k..], f, level) == want;
        OneMember(members[k], f, level, MoreMembers(members[k + 1..], f, level));
        k := k + 1;
      }
      NoMembersOwed(first, f, level);
      assert members[k..] == [];
      assert out + "" == out;
    }

    static function MemberText(m: Member, f: Format, level: nat): string {
      Quote(m.key) + ":" + (if f.indent >= 0 then " " else "") + Dump(m.value, f, level)
    }

    method OneMember(m: Member, f: Format, level: nat, ghost rest: string)
      modifies this
      ensures out + rest == old(out) + (MemberText(m, f, level) + rest)
      decreases m, 0
    {
      hide Dump, Quote;
      ghost var o := out;
      DumpString(m.key);
      out := out + ":";
      if f.indent >= 0 { out := out + " "; }
      ghost var gap := if f.indent >= 0 then " " else "";
      assert out == o + Quote(m.key) + ":" + gap;
      DumpInternal(m.value, f, level);
      assert o + Quote(m.key) + ":" + gap + Dump(m.value, f, level) + rest
          == o + (Quote(m.key) + ":" + gap + Dump(m.value, f, level) + rest);
    }

    static lemma MembersStep(members: seq<Member>, k: nat, f: Format, level: nat)
      requires k < |members|
      ensures DumpMembers(members[k..], f, level)
           == MemberText(members[k], f, level) + MoreMembers(members[k + 1..], f, level)
      ensures MoreMembers(members[k..], f, level) == "," + Break(f, level) + DumpMembers(members[k..], f, level)
    {
      hide Dump, Break, Quote;
      assert members[k..][1..] == members[k + 1..];
    }

    static lemma NoMembersOwed(first: bool, f: Format, level: nat)
      ensures MembersOwed([], first, f, level) == ""
    {
    }
  }
}
