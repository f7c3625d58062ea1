/** The argument lists the BCON builder accepts, as trees, and the documents they stand for. */
module BconSyntax {
  import opened Basics
  import opened BsonDocument
  import opened Bcon

  /** A document expression may end in a key without a value, which the builder drops. */
  datatype Expr =
    | Word(s: CString)
    | Given(v: Value)
    | DocExpr(fields: seq<Field>, dangling: Option<CString>)
    | ArrExpr(items: seq<Item>)

  datatype Field = Field(name: CString, expr: Expr) | DocSplice(doc: Doc)

  datatype Item = Item(expr: Expr) | ArrSplice(doc: Doc)

  function DanglingKey(k: Option<CString>): seq<Token> { if k.None? then [] else [Str(k.value)] }

  function Flat(e: Expr): (ts: seq<Token>)
    ensures ts != []
    decreases e
  {
    match e
    case Word(s) => [Str(s)]
    case Given(v) => [Single(v)]
    case DocExpr(fields, dangling) => [DocStart] + (FlatFields(fields) + (DanglingKey(dangling) + [DocEnd]))
    case ArrExpr(items) => [ArrayStart] + (FlatItems(items) + [ArrayEnd])
  }

  function FlatField(f: Field): seq<Token>
    decreases f
  {
    match f
    case Field(name, expr) => [Str(name)] + Flat(expr)
    case DocSplice(doc) => [Splice(doc)]
  }

  function FlatFields(fs: seq<Field>): seq<Token>
    decreases fs
  {
    if fs == [] then [] else FlatFields(fs[..|fs| - 1]) + FlatField(fs[|fs| - 1])
  }

  function FlatItem(item: Item): seq<Token>
    decreases item
  {
    match item
    case Item(expr) => Flat(expr)
    case ArrSplice(doc) => [Splice(doc)]
  }

  function FlatItems(items: seq<Item>): seq<Token>
    decreases items
  {
    if items == [] then [] else FlatItems(items[..|items| - 1]) + FlatItem(items[|items| - 1])
  }

  /** The value an expression stands for. */
  function Meaning(e: Expr): Value
    decreases e
  {
    match e
    case Word(s) => Utf8(s)
    case Given(v) => v
    case DocExpr(fields, _) => Document(FieldsMeaning(fields))
    case ArrExpr(items) => Array(ItemsMeaning(items))
  }

  function FieldMeaning(f: Field): Doc
    decreases f
  {
    match f
    case Field(name, expr) => [Elem(name, Meaning(expr))]
    case DocSplice(doc) => doc
  }

  function FieldsMeaning(fs: seq<Field>): Doc
    decreases fs
  {
    if fs == [] then [] else FieldsMeaning(fs[..|fs| - 1]) + FieldMeaning(fs[|fs| - 1])
  }

  /** The values an array item contributes. */
  function ItemMeaning(item: Item): seq<Value>
    decreases item
  {
    match item
    case Item(expr) => [Meaning(expr)]
    case ArrSplice(doc) => Values(doc)
  }

  function Values(doc: Doc): (vs: seq<Value>)
    ensures |vs| == |doc| && forall k :: 0 <= k < |doc| ==> vs[k] == doc[k].value
  {
    seq(|doc|, k requires 0 <= k < |doc| => doc[k].value)
  }

  function ItemsValues(items: seq<Item>): seq<Value>
    decreases items, 0
  {
    if items == [] then [] else ItemsValues(items[..|items| - 1]) + ItemMeaning(items[|items| - 1])
  }

  /** An array is its values under the keys "0", "1" and so on. */
  function Count(vs: seq<Value>): (d: Doc)
    ensures |d| == |vs| && Numbered(d) && Values(d) == vs
  {
    seq(|vs|, k requires 0 <= k < |vs| => Elem(ArrayKey(k), vs[k]))
  }

  function ItemsMeaning(items: seq<Item>): Doc
    decreases items, 1
  {
    Count(ItemsValues(items))
  }

  /** How many levels an expression opens. */
  function Depth(e: Expr): nat
    decreases e
  {
    match e
    case Word(_) => 0
    case Given(_) => 0
    case DocExpr(fields, _) => 1 + FieldsDepth(fields)
    case ArrExpr(items) => 1 + ItemsDepth(items)
  }

  function FieldDepth(f: Field): nat
    decreases f
  {
    if f.Field? then Depth(f.expr) else 0
  }

  function FieldsDepth(fs: seq<Field>): nat
    decreases fs
  {
    if fs == [] then 0 else Larger(FieldsDepth(fs[..|fs| - 1]), FieldDepth(fs[|fs| - 1]))
  }

  function ItemDepth(item: Item): nat
    decreases item
  {
    if item.Item? then Depth(item.expr) else 0
  }

  function ItemsDepth(items: seq<Item>): nat
    decreases items
  {
    if items == [] then 0 else Larger(ItemsDepth(items[..|items| - 1]), ItemDepth(items[|items| - 1]))
  }

  lemma FieldsSnoc(fs: seq<Field>, f: Field)
    ensures FlatFields(fs + [f]) == FlatFields(fs) + FlatField(f)
    ensures FieldsMeaning(fs + [f]) == FieldsMeaning(fs) + FieldMeaning(f)
    ensures FieldsDepth(fs + [f]) == Larger(FieldsDepth(fs), FieldDepth(f))
  {
    assert (fs + [f])[..|fs|] == fs && (fs + [f])[|fs|] == f;
  }

  lemma ItemsSnoc(items: seq<Item>, item: Item)
    ensures FlatItems(items + [item]) == FlatItems(items) + FlatItem(item)
    ensures ItemsValues(items + [item]) == ItemsValues(items) + ItemMeaning(item)
    ensures ItemsDepth(items + [item]) == Larger(ItemsDepth(items), ItemDepth(item))
  {
    assert (items + [item])[..|items|] == items && (items + [item])[|items|] == item;
  }

  /** A string as an argument: as it is, unless that would be a bracket or it is to be marked as a string. */
  function StringArgument(s: CString, marked: bool): Arg {
    if Unbracketed(s) && !marked then Text(s) else TypedText(s)
  }

  /** The argument list a programmer writes for an expression. */
  function Arguments(e: Expr, marked: bool): seq<Arg>
    decreases e
  {
    match e
    case Word(s) => [StringArgument(s, marked)]
    case Given(v) => [Typed(v)]
    case DocExpr(fields, dangling) =>
      [Text([0x7B])] + (FieldsArguments(fields, marked) + (DanglingArgument(dangling, marked) + [Text([0x7D])]))
    case ArrExpr(items) => [Text([0x5B])] + (ItemsArguments(items, marked) + [Text([0x5D])])
  }

  function DanglingArgument(k: Option<CString>, marked: bool): seq<Arg> {
    if k.None? then [] else [StringArgument(k.value, marked)]
  }

  function FieldArguments(f: Field, marked: bool): seq<Arg>
    decreases f
  {
    match f
    case Field(name, expr) => [StringArgument(name, marked)] + Arguments(expr, marked)
    case DocSplice(doc) => [Arg.Bcon(doc)]
  }

  function FieldsArguments(fs: seq<Field>, marked: bool): seq<Arg>
    decreases fs
  {
    if fs == [] then [] else FieldsArguments(fs[..|fs| - 1], marked) + FieldArguments(fs[|fs| - 1], marked)
  }

  function ItemArguments(item: Item, marked: bool): seq<Arg>
    decreases item
  {
    match item
    case Item(expr) => Arguments(expr, marked)
    case ArrSplice(doc) => [Arg.Bcon(doc)]
  }

  function ItemsArguments(items: seq<Item>, marked: bool): seq<Arg>
    decreases items
  {
    if items == [] then [] else ItemsArguments(items[..|items| - 1], marked) + ItemArguments(items[|items| - 1], marked)
  }

  lemma {:induction false} TokensAppend(a: seq<Arg>, b: seq<Arg>)
    ensures Tokens(a + b) == Tokens(a) + Tokens(b)
  {
    if a == [] {
      assert a + b == b;
    } else {
      TokensAppend(a[1..], b);
      assert (a + b)[1..] == a[1..] + b;
    }
  }

  lemma TokensOne(a: Arg)
    ensures Tokens([a]) == [Tokenize(a)]
  {
  }

  lemma TokensAround(open: Arg, inside: seq<Arg>, close: Arg)
    ensures Tokens([open] + (inside + [close])) == [Tokenize(open)] + (Tokens(inside) + [Tokenize(close)])
  {
    TokensAppend([open], inside + [close]);
    TokensAppend(inside, [close]);
    TokensOne(open);
    TokensOne(close);
  }

  lemma TokensDangling(k: Option<CString>, marked: bool)
    ensures Tokens(DanglingArgument(k, marked)) == DanglingKey(k)
  {
    if k.Some? { TokensOne(StringArgument(k.value, marked)); }
  }

  lemma TokensDoc(fields: seq<Field>, dangling: Option<CString>, marked: bool)
    requires Tokens(FieldsArguments(fields, marked)) == FlatFields(fields)
    ensures Tokens(Arguments(DocExpr(fields, dangling), marked)) == Flat(DocExpr(fields, dangling))
  {
    hide Tokens, FieldsArguments, FlatFields, DanglingArgument, DanglingKey;
    var inside, key := FieldsArguments(fields, marked), DanglingArgument(dangling, marked);
    TokensDangling(dangling, marked);
    TokensAppend(inside, key);
    assert inside + (key + [Text([0x7D])]) == inside + key + [Text([0x7D])];
    TokensAround(Text([0x7B]), inside + key, Text([0x7D]));
    assert FlatFields(fields) + DanglingKey(dangling) + [DocEnd]
        == FlatFields(fields) + (DanglingKey(dangling) + [DocEnd]);
  }

  lemma TokensArray(items: seq<Item>, marked: bool)
    requires Tokens(ItemsArguments(items, marked)) == FlatItems(items)
    ensures Tokens(Arguments(ArrExpr(items), marked)) == Flat(ArrExpr(items))
  {
    TokensAround(Text([0x5B]), ItemsArguments(items, marked), Text([0x5D]));
  }

  /** The written arguments are the tokens of the expression. */
  lemma {:induction false} TokensWritten(e: Expr, marked: bool)
    ensures Tokens(Arguments(e, marked)) == Flat(e)
    decreases e, 0
  {
    match e
    case Word(s) => TokensOne(StringArgument(s, marked));
    case Given(v) => TokensOne(Typed(v));
    case DocExpr(fields, dangling) =>
      TokensFields(fields, marked);
      TokensDoc(fields, dangling, marked);
    case ArrExpr(items) =>
      TokensItems(items, marked);
      TokensArray(items, marked);
  }

  lemma TokensField(f: Field, marked: bool)
    ensures Tokens(FieldArguments(f, marked)) == FlatField(f)
    decreases f, 1
  {
    match f
    case Field(name, expr) =>
      TokensWritten(expr, marked);
      TokensAppend([StringArgument(name, marked)], Arguments(expr, marked));
      TokensOne(StringArgument(name, marked));
    case DocSplice(doc) => TokensOne(Arg.Bcon(doc));
  }

  lemma {:induction false} TokensFields(fs: seq<Field>, marked: bool)
    ensures Tokens(FieldsArguments(fs, marked)) == FlatFields(fs)
    decreases fs, 0
  {
    if fs != [] {
      var init, last := fs[..|fs| - 1], fs[|fs| - 1];
      TokensFields(init, marked);
      TokensField(last, marked);
      TokensAppend(FieldsArguments(init, marked), FieldArguments(last, marked));
    }
  }

  lemma TokensItem(item: Item, marked: bool)
    ensures Tokens(ItemArguments(item, marked)) == FlatItem(item)
    decreases item, 1
  {
    match item
    case Item(expr) => TokensWritten(expr, marked);
    case ArrSplice(doc) => TokensOne(Arg.Bcon(doc));
  }

  lemma {:induction false} TokensItems(items: seq<Item>, marked: bool)
    ensures Tokens(ItemsArguments(items, marked)) == FlatItems(items)
    decreases items, 0
  {
    if items != [] {
      var init, last := items[..|items| - 1], items[|items| - 1];
      TokensItems(init, marked);
      TokensItem(last, marked);
      TokensAppend(ItemsArguments(init, marked), ItemArguments(last, marked));
    }
  }
}
