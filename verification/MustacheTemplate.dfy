/** Whole templates: compiling and rendering put out what the tree of the template's tags means. */
module MustacheTemplate {
  import opened Wrappers
  import opened MustacheTree
  import opened MustacheRender
  import opened MustacheParse
  import opened MustacheCompile

  /** For every template whose tags are balanced: what is put out is the meaning of its tree in the given context,
      with the texts that are left between the tags once standalone lines have been removed. */
  method RenderBody(body: string, ctx: Value) returns (ok: bool, out: string)
    requires TreeOf(body).Some? && AllPlain(TreeOf(body).value)
    ensures Sizes(TreeOf(body).value) == |TextsIn(body)| - 1
    ensures var texts, n := TextsIn(body), |TextsIn(body)| - 1;
            var want := Append(Interp(Retext(TreeOf(body).value, texts[..n]), [ctx]), Some(texts[n]));
            ok == want.Some? && (ok ==> out == want.value)
  {
    hide NextTag, Grow, ReadTags, Interp, Retext, Flat, CodeOf, TextsIn, TrimmedIn, Sub, AllInText;
    var r := Compile(body);
    ghost var nodes, texts, n := TreeOf(body).value, TextsIn(body), |TextsIn(body)| - 1;
    RetextPlain(nodes, texts[..n]);
    var t := new Template(body, r.fragments, r.actions);
    ok, out := t.RenderString(ctx, Retext(nodes, texts[..n]), texts[n]);
  }
}
