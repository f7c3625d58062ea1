/** Writing a document as builder arguments, building it, and extracting it again. */
module BconRoundTrip {
  import opened Basics
  import opened BsonDocument
  import B = Bcon
  import S = BconSyntax
  import BconBuild
  import F = BconFits
  import M = BconMatch

  /** No key of a document, at any depth, starts with a bracket. */
  predicate PlainKeys(v: Value)
    decreases v
  {
    match v
    case Document(doc) => forall i :: 0 <= i < |doc| ==> B.Unbracketed(doc[i].key) && PlainKeys(doc[i].value)
    case Array(doc) => forall i :: 0 <= i < |doc| ==> PlainKeys(doc[i].value)
    case _ => true
  }

  /** The expression behind those arguments. */
  function ExprOf(v: Value): S.Expr
    decreases v
  {
    match v
    case Document(doc) => S.DocExpr(FieldsOf(doc), None)
    case Array(doc) => S.ArrExpr(ItemsOf(doc))
    case _ => S.Given(v)
  }

  function FieldsOf(doc: Doc): (fs: seq<S.Field>)
    decreases doc
  {
    if doc == [] then []
    else FieldsOf(doc[..|doc| - 1]) + [S.Field.Field(doc[|doc| - 1].key, ExprOf(doc[|doc| - 1].value))]
  }

  function ItemsOf(doc: Doc): (items: seq<S.Item>)
    decreases doc
  {
    if doc == [] then [] else ItemsOf(doc[..|doc| - 1]) + [S.Item.Item(ExprOf(doc[|doc| - 1].value))]
  }

  /** The expression stands for the value and is as deep. */
  lemma {:induction false} ExprMeans(v: Value)
    requires M.WellKeyed(v)
    ensures S.Meaning(ExprOf(v)) == v && S.Depth(ExprOf(v)) == M.Depth(v)
    decreases v
  {
    match v
    case Document(doc) => FieldsMean(doc);
    case Array(doc) =>
      ItemsMean(doc);
      BconBuild.SameArray(doc, S.Count(S.Values(doc)));
    case _ =>
  }

  lemma {:induction false} FieldsMean(doc: Doc)
    requires forall i :: 0 <= i < |doc| ==> M.WellKeyed(doc[i].value)
    ensures S.FieldsMeaning(FieldsOf(doc)) == doc && S.FieldsDepth(FieldsOf(doc)) == M.DepthOf(doc)
    decreases doc
  {
    if doc != [] {
      var init, last := doc[..|doc| - 1], doc[|doc| - 1];
      FieldsMean(init);
      ExprMeans(last.value);
      S.FieldsSnoc(FieldsOf(init), S.Field.Field(last.key, ExprOf(last.value)));
      assert doc == init + [last];
    }
  }

  lemma {:induction false} ItemsMean(doc: Doc)
    requires forall i :: 0 <= i < |doc| ==> M.WellKeyed(doc[i].value)
    ensures S.ItemsValues(ItemsOf(doc)) == S.Values(doc) && S.ItemsDepth(ItemsOf(doc)) == M.DepthOf(doc)
    decreases doc
  {
    if doc != [] {
      var init, last := doc[..|doc| - 1], doc[|doc| - 1];
      ItemsMean(init);
      ExprMeans(last.value);
      S.ItemsSnoc(ItemsOf(init), S.Item.Item(ExprOf(last.value)));
      assert S.Values(doc) == S.Values(init) + [last.value];
    }
  }

  /** Building from the arguments written for an expression gives what it stands for, if its nesting fits the stack. */
  lemma BuildsArguments(fields: seq<S.Field>, marked: bool)
    ensures B.Terminated(B.Tokens(S.FieldsArguments(fields, marked) + [B.Nil]))
    ensures B.Run([B.ROOT], B.Tokens(S.FieldsArguments(fields, marked) + [B.Nil]))
         == if S.FieldsDepth(fields) < 100 then B.Returned([B.ROOT.(elems := S.FieldsMeaning(fields))], [])
            else B.Aborted
  {
    S.TokensFields(fields, marked);
    S.TokensAppend(S.FieldsArguments(fields, marked), [B.Nil]);
    S.TokensOne(B.Nil);
    BconBuild.Builds(fields, []);
    assert [B.End] + [] == [B.End];
  }

  /** bcon_append on the arguments written for an expression; false stands for a failed assertion. */
  method Append(fields: seq<S.Field>, marked: bool) returns (ok: bool, doc: Doc)
    ensures ok <==> S.FieldsDepth(fields) < 100
    ensures ok ==> doc == S.FieldsMeaning(fields)
  {
    BuildsArguments(fields, marked);
    var builder := new B.AppendContext();
    var rest;
    ok, rest := builder.AppendCtxVa(S.FieldsArguments(fields, marked) + [B.Nil]);
    if ok { assert builder.Frames()[0].elems == S.FieldsMeaning(fields); }
    doc := builder.stack[0].elems;
  }

  /** Building from a document's written arguments gives back exactly that document. */
  lemma BuildsWritten(doc: Doc)
    requires M.WellKeyed(Document(doc))
    ensures S.FieldsMeaning(FieldsOf(doc)) == doc && S.FieldsDepth(FieldsOf(doc)) == M.DepthOf(doc)
  {
    FieldsMean(doc);
  }

  /** The pattern that asks for a document's leaves has the document's keys. */
  lemma {:induction false} PlainPattern(v: Value)
    requires PlainKeys(v)
    ensures F.Plain(M.PatternOf(v))
    decreases v
  {
    match v
    case Document(doc) => PlainFieldsOf(doc);
    case Array(doc) => PlainItemsOf(doc);
    case _ =>
  }

  lemma {:induction false} PlainFieldsOf(doc: Doc)
    requires forall i :: 0 <= i < |doc| ==> B.Unbracketed(doc[i].key) && PlainKeys(doc[i].value)
    ensures F.PlainFields(M.FieldsOf(doc))
    decreases doc
  {
    if doc != [] {
      PlainFieldsOf(doc[..|doc| - 1]);
      PlainPattern(doc[|doc| - 1].value);
    }
  }

  lemma {:induction false} PlainItemsOf(doc: Doc)
    requires forall i :: 0 <= i < |doc| ==> PlainKeys(doc[i].value)
    ensures forall i :: 0 <= i < |doc| ==> F.Plain(M.ItemsOf(doc)[i])
    decreases doc
  {
    if doc != [] {
      PlainItemsOf(doc[..|doc| - 1]);
      PlainPattern(doc[|doc| - 1].value);
    }
  }

  /** A document fits the pattern that asks for its leaves, which captures them. */
  lemma ExtractsAsked(doc: Doc)
    requires M.WellKeyed(Document(doc)) && M.DepthOf(doc) < 100
    ensures F.FitFields(M.FieldsOf(doc), doc) && F.FieldsNesting(M.FieldsOf(doc)) < 100
    ensures F.FieldsCaptured(M.FieldsOf(doc), doc) == M.LeavesOf(doc)
  {
    hide F.FitFields, F.FieldsCaptured, F.FieldsNesting, M.MatchFields, M.FieldsOf, M.LeavesOf;
    M.MatchesFields(doc, doc, 1);
    F.FieldsJudged(M.FieldsOf(doc), doc, 1);
  }

  /** Builds a document from its written arguments and extracts it again: true, with every leaf. */
  method BuildThenExtract(doc: Doc) returns (r: Option<bool>, leaves: seq<Value>)
    requires M.WellKeyed(Document(doc)) && PlainKeys(Document(doc)) && M.DepthOf(doc) < 100
    ensures r == Some(true) && leaves == M.LeavesOf(doc)
  {
    BuildsWritten(doc);
    ExtractsAsked(doc);
    PlainPattern(Document(doc));
    var ok, built := Append(FieldsOf(doc), false);
    r, leaves := F.Extract(built, M.FieldsOf(doc));
  }
}
