/**
 The two Java walks are written separately, over separate bookkeeping. Their answers are joined by
 name and line, so they have to agree on what a type is and where it is open; here they are shown to.
 */
module JavaAgreement {
  import opened JavaHeaders
  import opened JavaTokens
  import opened Options
  import D = JavaDeclarations
  import E = JavaEnclosing

  /** The two units have read the same type header, as far as one has been read. */
  ghost predicate UnitsAgree(unit: E.Unit, pending: D.Pending) {
    && unit.className == pending.typeName
    && unit.expectClassName == pending.expectTypeName
    && (pending.typeName.Some? || pending.expectTypeName ==> pending.kind.Some? && D.IsType(pending.kind.value))
    && (pending.kind.Some? ==> D.IsType(pending.kind.value))
  }

  /**
   The two stacks of scopes were opened by the same braces: level by level, a scope the declaration
   walk opened as a type is a named scope of the enclosing walk, and the type names are those names.
   */
  ghost predicate StacksAgree(names: seq<string>, open: seq<E.OpenScope>, types: seq<string>, scopes: seq<D.ScopeKind>)
    decreases |open|
  {
    && |open| == |scopes|
    && if open == [] then names == [] && types == []
       else
         var top := open[|open| - 1];
         var isType := scopes[|scopes| - 1].TypeScope?;
         && (top.named ==> names != [])
         && (isType ==> top.named && types != [] && types[|types| - 1] == names[|names| - 1])
         && StacksAgree(if top.named then WithoutLast(names) else names, open[..|open| - 1],
                        if isType then WithoutLast(types) else types, scopes[..|scopes| - 1])
  }

  /** `types` is `names` with the names of some scopes left out. */
  ghost predicate SubsequenceOf(types: seq<string>, names: seq<string>)
    decreases |names|
  {
    if types == [] then true
    else
      names != [] && (if types[|types| - 1] == names[|names| - 1] && SubsequenceOf(types[..|types| - 1], names[..|names| - 1])
                      then true
                      else SubsequenceOf(types, names[..|names| - 1]))
  }

  ghost predicate Agree(e: E.Walk, d: D.Walk) {
    && e.index == d.index
    && e.parenDepth == d.parenDepth
    && UnitsAgree(e.unit, d.pending)
    && StacksAgree(e.namedStack, e.open, d.typeStack, d.scopes)
  }

  /** A scope more on both sides, with a name more on a side that takes it for a type or names it. */
  lemma PushAgrees(names: seq<string>, open: seq<E.OpenScope>, types: seq<string>, scopes: seq<D.ScopeKind>,
                   name: string, scope: E.OpenScope, kind: D.ScopeKind)
    requires StacksAgree(names, open, types, scopes) && (kind.TypeScope? ==> scope.named)
    ensures StacksAgree(if scope.named then names + [name] else names, open + [scope],
                        if kind.TypeScope? then types + [name] else types, scopes + [kind])
  {
    assert (open + [scope])[..|open|] == open && (scopes + [kind])[..|scopes|] == scopes;
    assert WithoutLast(names + [name]) == names && WithoutLast(types + [name]) == types;
  }

  lemma OpeningAgrees(e: E.Walk, d: D.Walk, line: nat, at: nat, offset: nat)
    requires Agree(e, d)
    ensures var e', d' := E.Opened(e, line, at), D.Opened(d, offset);
            StacksAgree(e'.namedStack, e'.open, d'.typeStack, d'.scopes)
  {
    var e', d' := E.Opened(e, line, at), D.Opened(d, offset);
    var scopeName := e.unit.ScopeName(e.parenDepth);
    var name := if scopeName.Some? then scopeName.value else "";
    var scope, kind := e'.open[|e.open|], d'.scopes[|d.scopes|];
    PushAgrees(e.namedStack, e.open, d.typeStack, d.scopes, name, scope, kind);
    assert e'.open == e.open + [scope] && d'.scopes == d.scopes + [kind];
    assert e'.namedStack == if scope.named then e.namedStack + [name] else e.namedStack;
    assert d'.typeStack == if kind.TypeScope? then d.typeStack + [name] else d.typeStack;
  }

  lemma ClosingAgrees(e: E.Walk, d: D.Walk, line: nat, at: nat)
    requires Agree(e, d)
    ensures Agree(E.Closed(e, line, at), D.Closed(d))
  {
  }

  /** What one header comes to is the same for both. */
  lemma HeaderAgrees(h: seq<Read>)
    ensures UnitsAgree(E.UnitOf(h), D.PendingOf(h))
  {
    D.NamesAreWords(h);
    D.KindIsKnown(h);
  }

  lemma StacksStay(tokens: seq<Spanned>, e: E.Walk, d: D.Walk)
    requires e.index == d.index < |tokens| && !tokens[e.index].token.LBrace? && !tokens[e.index].token.RBrace?
    ensures E.Step(tokens, e).namedStack == e.namedStack && E.Step(tokens, e).open == e.open
    ensures D.Step(tokens, d).typeStack == d.typeStack && D.Step(tokens, d).scopes == d.scopes
  {
  }

  lemma StackStepAgrees(tokens: seq<Spanned>, e: E.Walk, d: D.Walk)
    requires Agree(e, d) && e.index < |tokens|
    ensures var e', d' := E.Step(tokens, e), D.Step(tokens, d);
            StacksAgree(e'.namedStack, e'.open, d'.typeStack, d'.scopes)
  {
    var here, after := tokens[e.index], e.index + 1;
    match here.token {
      case LBrace => OpeningAgrees(e.(index := after), d.(index := after), here.line, e.index, here.offset);
      case RBrace => ClosingAgrees(e.(index := after), d.(index := after), here.line, e.index);
      case _ => StacksStay(tokens, e, d);
    }
  }

  lemma SameHeaderRead(tokens: seq<Spanned>, n: nat)
    ensures var e, d := E.After(tokens, n), D.After(tokens, n);
            e.index == d.index && e.parenDepth == d.parenDepth && UnitsAgree(e.unit, d.pending)
  {
    E.HeaderIsRead(tokens, n);
    D.HeaderIsRead(tokens, n);
    HeaderAgrees(Reading(tokens, n).header);
  }

  lemma StacksAgreeNext(tokens: seq<Spanned>, n: nat)
    requires Agree(E.After(tokens, n), D.After(tokens, n))
    ensures var e, d := E.After(tokens, n + 1), D.After(tokens, n + 1);
            StacksAgree(e.namedStack, e.open, d.typeStack, d.scopes)
  {
    if E.After(tokens, n).index < |tokens| {
      StackStepAgrees(tokens, E.After(tokens, n), D.After(tokens, n));
    }
  }

  /** After every iteration, over any tokens, the two walks stand at the same token with the same types open. */
  lemma WalksAgree(tokens: seq<Spanned>, n: nat)
    ensures Agree(E.After(tokens, n), D.After(tokens, n))
  {
    var agree := (m: nat) => Agree(E.After(tokens, m), D.After(tokens, m));
    assert agree(0);
    forall m: nat | agree(m)
      ensures agree(m + 1)
    {
      SameHeaderRead(tokens, m + 1);
      StacksAgreeNext(tokens, m);
    }
    StepByStep(agree, n);
  }

  /** The name of the type a `{` opens for the enclosing walk, and for the declaration walk. */
  ghost function TypeOpenedE(tokens: seq<Spanned>, w: E.Walk): Option<string> {
    if w.index < |tokens| && tokens[w.index].token.LBrace? then w.unit.className else None
  }

  ghost function TypeOpenedD(tokens: seq<Spanned>, w: D.Walk): Option<string> {
    if w.index < |tokens| && tokens[w.index].token.LBrace? && w.pending.ClassifyBlock(w.typeStack).TypeBlock?
    then Some(D.NameOr(w.pending.typeName)) else None
  }

  /** Every brace opens the same type, or none, for both. */
  lemma SameTypesOpened(tokens: seq<Spanned>, n: nat)
    ensures E.After(tokens, n).index == D.After(tokens, n).index
    ensures TypeOpenedE(tokens, E.After(tokens, n)) == TypeOpenedD(tokens, D.After(tokens, n))
  {
    WalksAgree(tokens, n);
  }

  lemma {:induction false} SubsequenceGrows(types: seq<string>, names: seq<string>, name: string)
    requires SubsequenceOf(types, names)
    ensures SubsequenceOf(types, names + [name])
    ensures SubsequenceOf(types + [name], names + [name])
  {
    assert (names + [name])[..|names|] == names;
    assert (types + [name])[..|types|] == types;
  }

  lemma {:induction false} StacksAreSubsequences(names: seq<string>, open: seq<E.OpenScope>, types: seq<string>,
                                                scopes: seq<D.ScopeKind>)
    requires StacksAgree(names, open, types, scopes)
    ensures SubsequenceOf(types, names)
    decreases |open|
  {
    if open != [] {
      var named := open[|open| - 1].named;
      var isType := scopes[|scopes| - 1].TypeScope?;
      var names' := if named then WithoutLast(names) else names;
      var types' := if isType then WithoutLast(types) else types;
      StacksAreSubsequences(names', open[..|open| - 1], types', scopes[..|scopes| - 1]);
      LastLevel(names, types, names', types', named, isType);
    }
  }

  lemma LastLevel(names: seq<string>, types: seq<string>, names': seq<string>, types': seq<string>, named: bool,
                  isType: bool)
    requires SubsequenceOf(types', names')
    requires if named then names != [] && names' == names[..|names| - 1] else names' == names
    requires if isType then types != [] && types' == types[..|types| - 1] else types' == types
    requires isType ==> named && types[|types| - 1] == names[|names| - 1]
    ensures SubsequenceOf(types, names)
  {
    if named {
      SubsequenceGrows(types', names', names[|names| - 1]);
      assert names == names' + [names[|names| - 1]];
      if isType {
        assert types == types' + [names[|names| - 1]];
      }
    }
  }

  /** After every iteration the open types are, in order, among the names of the open scopes. */
  lemma OpenTypesAreOpenScopes(tokens: seq<Spanned>, n: nat)
    ensures SubsequenceOf(D.After(tokens, n).typeStack, E.After(tokens, n).namedStack)
    ensures |D.After(tokens, n).scopes| == |E.After(tokens, n).open|
  {
    WalksAgree(tokens, n);
    var e, d := E.After(tokens, n), D.After(tokens, n);
    StacksAreSubsequences(e.namedStack, e.open, d.typeStack, d.scopes);
  }

  /**
   The brace that opens a declaration's block opens a scope of the enclosing walk, too. Lines attributed to that scope
   read its path, and the types the declaration is nested in, its own included, are in order among the names on it.
   */
  lemma DeclaredTypesAreOnTheScopesPath(tokens: seq<Spanned>, lastLine: nat, n: nat)
    requires D.After(tokens, n).index < |tokens| && tokens[D.After(tokens, n).index].token.LBrace?
    ensures exists a :: a in E.Scopes(tokens, lastLine) && a.openAt == D.After(tokens, n).index
                        && a.path == E.PathOf(E.After(tokens, n + 1).namedStack)
    ensures SubsequenceOf(D.After(tokens, n + 1).typeStack, E.After(tokens, n + 1).namedStack)
  {
    WalksAgree(tokens, n);
    E.BraceOpensListedScope(tokens, lastLine, n);
    OpenTypesAreOpenScopes(tokens, n + 1);
  }

  // ----- the answers

  /** The names of the types among the declarations. */
  function TypeNames(ds: seq<D.Declaration>): seq<string> {
    if ds == [] then []
    else
      var last := ds[|ds| - 1];
      TypeNames(ds[..|ds| - 1]) + if D.IsType(last.kind) then [last.name] else []
  }

  /** The names of the types that the braces met in the first `n` iterations open, for the enclosing walk. */
  ghost function TypesOpened(tokens: seq<Spanned>, n: nat): seq<string> {
    Collected(m => TypeOpenedE(tokens, E.After(tokens, m)), n)
  }

  function TypeNameOf(d: Option<D.Declaration>): Option<string> {
    if d.Some? && D.IsType(d.value.kind) then Some(d.value.name) else None
  }

  lemma TypeIsListed(tokens: seq<Spanned>, n: nat)
    ensures TypeOpenedE(tokens, E.After(tokens, n)) == TypeNameOf(D.ListedAt(tokens, n))
  {
    E.ClassNameIsRead(tokens, n);
    D.ListedType(tokens, n);
  }

  lemma TypeNamesGrow(ds: seq<D.Declaration>, d: Option<D.Declaration>)
    ensures TypeNames(Appended(ds, d)) == Appended(TypeNames(ds), TypeNameOf(d))
  {
    if d.Some? {
      assert (ds + [d.value])[..|ds|] == ds;
    }
  }

  lemma {:induction false} TypeNamesCollected(found: nat -> Option<D.Declaration>, types: nat -> Option<string>, n: nat)
    requires forall m: nat :: types(m) == TypeNameOf(found(m))
    ensures TypeNames(Collected(found, n)) == Collected(types, n)
  {
    if n > 0 {
      TypeNamesCollected(found, types, n - 1);
      TypeNamesGrow(Collected(found, n - 1), found(n - 1));
    }
  }

  /** The types listed are exactly the types opened, in the same order. */
  lemma TypesListedAreTypesOpened(tokens: seq<Spanned>, n: nat)
    ensures TypeNames(D.After(tokens, n).declarations) == TypesOpened(tokens, n)
  {
    D.ListsWhatHeadersDeclare(tokens, n);
    var found, types := (m: nat) => D.ListedAt(tokens, m), (m: nat) => TypeOpenedE(tokens, E.After(tokens, m));
    forall m: nat
      ensures types(m) == TypeNameOf(found(m))
    {
      TypeIsListed(tokens, m);
    }
    TypeNamesCollected(found, types, n);
  }

  /** What the brace declares stands in a list that is still open, where it is neither a type nor behind an arrow. */
  ghost predicate DeclaresInList(tokens: seq<Spanned>, n: nat) {
    var r := Reading(tokens, n);
    && r.index < |tokens| && tokens[r.index].token.LBrace?
    && TypeName(r.header) == [] && MemberName(r.header) != [] && !HasArrow(r.header) && r.depth > 0
  }

  /** The name of what a brace declares. */
  ghost function BlockDeclared(tokens: seq<Spanned>, n: nat): Option<string> {
    var r := Reading(tokens, n);
    if r.index < |tokens| && tokens[r.index].token.LBrace? && D.ListedAt(tokens, n).Some?
    then Some(D.ListedAt(tokens, n).value.name) else None
  }

  /** The name of the scope a brace opens. */
  ghost function ScopeOpened(tokens: seq<Spanned>, n: nat): Option<string> {
    var r := Reading(tokens, n);
    if r.index < |tokens| && tokens[r.index].token.LBrace? then E.ScopeNameOf(r.header, r.depth) else None
  }

  /** A brace opens a scope under the name of what it declares, or none, exactly outside lists. */
  lemma BlockAgreesExactly(tokens: seq<Spanned>, n: nat)
    ensures ScopeOpened(tokens, n) == BlockDeclared(tokens, n) <==> !DeclaresInList(tokens, n)
    ensures DeclaresInList(tokens, n) ==> ScopeOpened(tokens, n) == None
  {
    D.NamesAreWords(Reading(tokens, n).header);
  }

  /** All named scopes are declared under the same names, in the same order, exactly when no list holds such a block. */
  lemma BlocksAgreeExactly(tokens: seq<Spanned>, n: nat)
    ensures Collected(m => ScopeOpened(tokens, m), n) == Collected(m => BlockDeclared(tokens, m), n)
       <==> forall m: nat | m < n :: !DeclaresInList(tokens, m)
  {
    var scopes, blocks := (m: nat) => ScopeOpened(tokens, m), (m: nat) => BlockDeclared(tokens, m);
    forall m: nat
      ensures scopes(m) == blocks(m) <==> !DeclaresInList(tokens, m)
      ensures scopes(m) == blocks(m) || scopes(m) == None
    {
      BlockAgreesExactly(tokens, m);
    }
    CollectedSameExactly(blocks, scopes, n);
  }

  /**
   Outside lists, a declared block has its scope: opened by the brace its header ends at, under the names that are open
   there and its own, among them, in order, the types it is nested in.
   */
  lemma DeclaredBlockHasScope(tokens: seq<Spanned>, lastLine: nat, n: nat, d: D.Declaration)
    requires OffsetsAscend(tokens) && D.ListedAt(tokens, n) == Some(d)
    requires tokens[Reading(tokens, n).index].token.LBrace? && !DeclaresInList(tokens, n)
    ensures HasScope(tokens, lastLine, d)
  {
    var names := E.After(tokens, n).namedStack;
    E.HeaderIsRead(tokens, n);
    BlockAgreesExactly(tokens, n);
    E.BraceOpensNamedScope(tokens, n);
    E.BraceOpensListedScope(tokens, lastLine, n);
    OpenTypesAreOpenScopes(tokens, n);
    D.HeaderEnds(tokens, n, d);
    E.ScopesStandAtBraces(tokens, lastLine);
    var a :| a in E.Scopes(tokens, lastLine) && a.openAt == Reading(tokens, n).index && a.path == E.PathOf(names + [d.name]);
    assert IsScopeOf(tokens, a, names, d);
  }

  ghost predicate IsScopeOf(tokens: seq<Spanned>, a: E.Interval, names: seq<string>, d: D.Declaration) {
    && a.openAt < |tokens| && tokens[a.openAt].token.LBrace? && tokens[a.openAt].offset == d.header.1
    && a.path == E.PathOf(names + [d.name]) && SubsequenceOf(d.enclosing, names)
  }

  ghost predicate HasScope(tokens: seq<Spanned>, lastLine: nat, d: D.Declaration) {
    exists a, names :: a in E.Scopes(tokens, lastLine) && IsScopeOf(tokens, a, names, d)
  }

  /** Every type listed has its scope. */
  lemma ListedTypesHaveScopes(tokens: seq<Spanned>, lastLine: nat)
    requires OffsetsAscend(tokens)
    ensures forall d | d in D.After(tokens, |tokens|).declarations && D.IsType(d.kind) :: HasScope(tokens, lastLine, d)
  {
    D.ListsWhatHeadersDeclare(tokens, |tokens|);
    forall d | d in D.After(tokens, |tokens|).declarations && D.IsType(d.kind)
      ensures HasScope(tokens, lastLine, d)
    {
      D.ListedExactly(tokens, |tokens|, d);
      var n: nat :| n < |tokens| && D.ListedAt(tokens, n) == Some(d);
      TypeIsListed(tokens, n);
      E.HeaderIsRead(tokens, n);
      DeclaredBlockHasScope(tokens, lastLine, n, d);
    }
  }

  lemma TopTypeIsNamed(names: seq<string>, open: seq<E.OpenScope>, types: seq<string>, scopes: seq<D.ScopeKind>)
    requires StacksAgree(names, open, types, scopes) && D.InnermostIsType(scopes)
    ensures open != [] && open[|open| - 1].named && names != [] && types != []
    ensures types[|types| - 1] == names[|names| - 1]
  {
  }

  /** A declaration listed at a `;` stands in the body of the innermost type it is nested in. */
  lemma StatementStandsInItsType(tokens: seq<Spanned>, n: nat, d: D.Declaration)
    requires D.ListedAt(tokens, n) == Some(d) && !tokens[Reading(tokens, n).index].token.LBrace?
    ensures var e := E.After(tokens, n);
            && e.open != [] && e.open[|e.open| - 1].named && e.namedStack != [] && d.enclosing != []
            && d.enclosing[|d.enclosing| - 1] == e.namedStack[|e.namedStack| - 1]
  {
    WalksAgree(tokens, n);
    D.ListedEnclosing(tokens, n, d);
    var e, w := E.After(tokens, n), D.After(tokens, n);
    TopTypeIsNamed(e.namedStack, e.open, w.typeStack, w.scopes);
  }

  // ----- where names are taken for others

  /** The brace declares a member of that name in a list, and opens no named scope. */
  ghost predicate ListsMemberInList(tokens: seq<Spanned>, n: nat, name: string) {
    DeclaresInList(tokens, n) && BlockDeclared(tokens, n) == Some(name) && ScopeOpened(tokens, n) == None
  }

  /** A brace in the list of a call. */
  ghost predicate OpensInCall(tokens: seq<Spanned>, n: nat, p: nat) {
    var r := Reading(tokens, n);
    r.index < |tokens| && tokens[r.index].token.LBrace? && IsCallHeader(r.header, p) && r.depth > 0
  }

  /** A block in the list of a call is listed as a method or constructor under the name called; its scope is anonymous. */
  lemma BlockInCallIsListed(tokens: seq<Spanned>, n: nat, p: nat)
    requires OpensInCall(tokens, n, p)
    ensures ListsMemberInList(tokens, n, NameOf(Reading(tokens, n).header[p]))
    ensures D.After(tokens, n + 1).declarations == D.After(tokens, n).declarations + [D.ListedAt(tokens, n).value]
  {
    CallHasItsName(Reading(tokens, n).header, p);
    D.ListsOneMore(tokens, n);
  }

  /** `f(new int[] {`. */
  const CALL_WITH_ARRAY := [
    Spanned(Ident("f"), 1, 0), Spanned(LParen, 1, 1), Spanned(Ident("new"), 1, 2), Spanned(Ident("int"), 1, 6),
    Spanned(LBrace, 1, 12) ]

  lemma CallIsRead(n: nat)
    requires n == 4
    ensures var t := CALL_WITH_ARRAY;
            Reading(t, n) == Reader(4, 1, [Read(t[0], 0), Read(t[1], 0), Read(t[2], 1), Read(t[3], 1)])
  {
  }

  lemma CallBegins(n: nat)
    requires n == 4
    ensures OpensInCall(CALL_WITH_ARRAY, n, 0) && NameOf(Reading(CALL_WITH_ARRAY, n).header[0]) == "f"
  {
    CallIsRead(n);
  }

  /** So is the array that a call is given. */
  lemma CallWithArrayIsListed(n: nat)
    requires n == 4
    ensures ListsMemberInList(CALL_WITH_ARRAY, n, "f")
  {
    CallBegins(n);
    BlockInCallIsListed(CALL_WITH_ARRAY, n, 0);
  }

  /** `@a.b({`. */
  const QUALIFIED_USE := [
    Spanned(At, 1, 0), Spanned(Ident("a"), 1, 1), Spanned(Ident("b"), 1, 3), Spanned(LParen, 1, 4), Spanned(LBrace, 1, 5) ]

  lemma QualifiedUseIsRead(n: nat)
    requires n == 3
    ensures Reading(QUALIFIED_USE, n) == Reader(4, 1, [Read(QUALIFIED_USE[2], 0), Read(QUALIFIED_USE[3], 0)])
  {
    assert Reading(QUALIFIED_USE, 1) == Reader(2, 0, []);
  }

  /** And the list of an annotation with a qualified name, of which only the first segment is passed over. */
  lemma QualifiedUseIsListed(n: nat)
    requires n == 3
    ensures ListsMemberInList(QUALIFIED_USE, n, "b")
  {
    QualifiedUseIsRead(n);
    BlockInCallIsListed(QUALIFIED_USE, n, 0);
  }

  /** The brace opens a type of that name for both walks. */
  ghost predicate OpensType(tokens: seq<Spanned>, n: nat, name: string) {
    && ScopeOpened(tokens, n) == Some(name) && D.ListedAt(tokens, n).Some?
    && D.ListedAt(tokens, n).value.name == name && D.IsType(D.ListedAt(tokens, n).value.kind)
  }

  /** A brace whose header ends in a type name, but for tokens that are no words. */
  ghost predicate OpensBehindType(tokens: seq<Spanned>, n: nat, j: nat, k: nat) {
    var r := Reading(tokens, n);
    && r.index < |tokens| && tokens[r.index].token.LBrace? && NamesType(r.header, j, k)
    && forall i | k < i < |r.header| :: !r.header[i].spanned.token.Ident?
  }

  /** A word behind a class word names the type that the next brace opens, if no word follows it. */
  lemma TypeBlockIsListed(tokens: seq<Spanned>, n: nat, j: nat, k: nat)
    requires OpensBehindType(tokens, n, j, k)
    ensures OpensType(tokens, n, NameOf(Reading(tokens, n).header[k]))
  {
    LastTypeName(Reading(tokens, n).header, j, k);
    D.ListedType(tokens, n);
  }

  /** `if (F.class != c) {`. */
  const CLASS_LITERAL := [
    Spanned(Ident("if"), 1, 0), Spanned(LParen, 1, 3), Spanned(Ident("F"), 1, 4), Spanned(Ident("class"), 1, 6),
    Spanned(Eq, 1, 13), Spanned(Ident("c"), 1, 15), Spanned(RParen, 1, 16), Spanned(LBrace, 1, 18) ]

  lemma ClassLiteralIsRead(n: nat)
    requires n == 7
    ensures var t := CLASS_LITERAL;
            Reading(t, n)
            == Reader(7, 0, [Read(t[0], 0), Read(t[1], 0), Read(t[2], 1), Read(t[3], 1), Read(t[4], 1), Read(t[5], 1),
                             Read(t[6], 1)])
  {
    var t := CLASS_LITERAL;
    assert Reading(t, 3) == Reader(3, 1, [Read(t[0], 0), Read(t[1], 0), Read(t[2], 1)]);
  }

  lemma ClassLiteralNamesType(n: nat)
    requires n == 7
    ensures OpensBehindType(CLASS_LITERAL, n, 3, 5) && NameOf(Reading(CLASS_LITERAL, n).header[5]) == "c"
  {
    ClassLiteralIsRead(n);
  }

  lemma ClassLiteralIsInControlHeader(n: nat)
    requires n == 7
    ensures IsControlHeader(Reading(CLASS_LITERAL, n).header, 0)
  {
    ClassLiteralIsRead(n);
    var h := Reading(CLASS_LITERAL, n).header;
    assert h[0].spanned.token == Ident("if") && h[1] == Read(Spanned(LParen, 1, 3), 0);
    assert forall k | 2 <= k < 7 :: h[k].depth == 1;
  }

  /** A control block whose condition holds a class literal before a word opens a type for both walks. */
  lemma ClassLiteralOpensType(n: nat)
    requires n == 7
    ensures IsControlHeader(Reading(CLASS_LITERAL, n).header, 0) && OpensType(CLASS_LITERAL, n, "c")
  {
    ClassLiteralIsInControlHeader(n);
    ClassLiteralNamesType(n);
    TypeBlockIsListed(CLASS_LITERAL, n, 3, 5);
  }
}
