/**
 The brace walk that lists the declarations of a Java file. It reads the same tokens as the enclosing
 walk, by rules of its own: it keeps kinds, lines and header spans, and asks of a `{` what it declares.
 */
module JavaDeclarations {
  import opened JavaHeaders
  import opened JavaLexer
  import opened JavaTokens
  import opened Options

  datatype Kind = Class | Interface | Enum | Record | Annotation | Method | Constructor | Field

  predicate IsType(kind: Kind) {
    kind.Class? || kind.Interface? || kind.Enum? || kind.Record? || kind.Annotation?
  }

  function TypeKind(name: string): Kind {
    if name == "interface" then Interface
    else if name == "enum" then Enum
    else if name == "record" then Record
    else Class
  }

  /** A declaration; `header` is the byte range its signature is folded from. */
  datatype Declaration = Declaration(kind: Kind, name: string, line: nat, enclosing: seq<string>, header: (nat, nat))

  datatype ScopeKind = TypeScope | MemberScope | AnonymousScope

  datatype Block = TypeBlock(kind: Kind) | MemberBlock(kind: Kind) | AnonymousBlock

  datatype Pending = Pending(
    startOffset: Option<nat>,
    kind: Option<Kind>,
    expectTypeName: bool,
    typeName: Option<string>,
    nameLine: nat,
    prevIdent: Option<string>,
    prevIdentLine: nat,
    methodName: Option<string>,
    methodNameLine: nat,
    fieldName: Option<string>,
    fieldNameLine: nat,
    sawParamList: bool,
    sawNew: bool,
    sawArrow: bool,
    sawAssignment: bool,
    angleDepth: nat,
    headerIdentCount: nat)
  {
    function Begun(offset: nat): Pending {
      if startOffset.None? then this.(startOffset := Some(offset)) else this
    }

    function ObserveIdent(name: string, offset: nat, line: nat): Pending {
      Observe(name, offset, line, IsClassKeyword(name), name == "new", IsModifier(name))
    }

    function Observe(name: string, offset: nat, line: nat, isClass: bool, isNew: bool, isModifier: bool): Pending {
      var begun := Begun(offset);
      var seen :=
        if isClass then begun.(kind := Some(TypeKind(name)), expectTypeName := true)
        else if begun.expectTypeName then begun.(typeName := Some(name), nameLine := line, expectTypeName := false)
        else if isNew then begun.(sawNew := true)
        else if begun.angleDepth == 0 && !begun.sawParamList && !isModifier
        then begun.(headerIdentCount := begun.headerIdentCount + 1)
        else begun;
      seen.(prevIdent := Some(name), prevIdentLine := line)
    }

    function ObserveParamListOpen(): Pending {
      if typeName.Some? then this
      else
        var listed := this.(sawParamList := true);
        if prevIdent.Some? && !IsControlKeyword(prevIdent.value) && !sawNew
        then listed.(methodName := prevIdent, methodNameLine := prevIdentLine)
        else listed
    }

    function ObserveAssignment(): Pending {
      var noted := this.(sawAssignment := true);
      if fieldName.None? && methodName.None? && prevIdent.Some?
      then noted.(fieldName := prevIdent, fieldNameLine := prevIdentLine)
      else noted
    }

    function MemberKind(name: string, typeStack: seq<string>): Kind {
      if typeStack != [] && typeStack[|typeStack| - 1] == name && headerIdentCount <= 1 then Constructor else Method
    }

    function ClassifyBlock(typeStack: seq<string>): Block {
      if kind.Some? && typeName.Some? then TypeBlock(kind.value)
      else if sawParamList && !sawArrow && methodName.Some? then MemberBlock(MemberKind(methodName.value, typeStack))
      else AnonymousBlock
    }

    function Header(end: nat): (nat, nat) {
      if startOffset.Some? && startOffset.value <= end then (startOffset.value, end) else (0, 0)
    }

    function ClassifyStatement(typeStack: seq<string>, semiOffset: nat): Option<Declaration> {
      if startOffset.None? then None
      else if sawParamList && !sawArrow && !sawAssignment then
        if methodName.None? then None
        else Some(Declaration(Method, methodName.value, methodNameLine, typeStack, Header(semiOffset)))
      else if fieldName.Some? && sawAssignment then
        Some(Declaration(Field, fieldName.value, fieldNameLine, typeStack, Header(semiOffset)))
      else if prevIdent.Some? then
        Some(Declaration(Field, prevIdent.value, prevIdentLine, typeStack, Header(semiOffset)))
      else None
    }
  }

  const NO_PENDING := Pending(None, None, false, None, 0, None, 0, None, 0, None, 0, false, false, false, false, 0, 0)

  function NameOr(name: Option<string>): string {
    match name case Some(n) => n case None => ""
  }

  datatype Walk = Walk(
    index: nat,
    declarations: seq<Declaration>,
    typeStack: seq<string>,
    scopes: seq<ScopeKind>,
    pending: Pending,
    parenDepth: nat)

  const START := Walk(0, [], [], [], NO_PENDING, 0)

  function Opened(w: Walk, offset: nat): Walk {
    var p := w.pending;
    var reset := w.(pending := NO_PENDING);
    match p.ClassifyBlock(w.typeStack)
    case TypeBlock(kind) =>
      var d := Declaration(kind, NameOr(p.typeName), p.nameLine, w.typeStack, p.Header(offset));
      reset.(declarations := w.declarations + [d],
             typeStack := w.typeStack + [NameOr(p.typeName)],
             scopes := w.scopes + [TypeScope])
    case MemberBlock(kind) =>
      var d := Declaration(kind, NameOr(p.methodName), p.methodNameLine, w.typeStack, p.Header(offset));
      reset.(declarations := w.declarations + [d], scopes := w.scopes + [MemberScope])
    case AnonymousBlock => reset.(scopes := w.scopes + [AnonymousScope])
  }

  function InnermostIsType(scopes: seq<ScopeKind>): bool {
    scopes != [] && scopes[|scopes| - 1].TypeScope?
  }

  function Closed(w: Walk): Walk {
    w.(typeStack := if InnermostIsType(w.scopes) then WithoutLast(w.typeStack) else w.typeStack,
       scopes := WithoutLast(w.scopes),
       pending := NO_PENDING)
  }

  function Ended(w: Walk, offset: nat): Walk {
    var found := if InnermostIsType(w.scopes) then w.pending.ClassifyStatement(w.typeStack, offset) else None;
    w.(declarations := if found.Some? then w.declarations + [found.value] else w.declarations, pending := NO_PENDING)
  }

  /** One iteration of the walk. */
  ghost function Step(tokens: seq<Spanned>, w: Walk): Walk
    requires w.index < |tokens|
  {
    var here := tokens[w.index];
    var next := w.(index := w.index + 1);
    match here.token
    case At =>
      if DeclaresAnnotation(tokens, w.index + 1) then
        w.(index := w.index + 2,
           pending := w.pending.Begun(here.offset).(kind := Some(Annotation), expectTypeName := true))
      else w.(index := AnnotationEnd(tokens, w.index + 1))
    case Ident(name) => next.(pending := w.pending.ObserveIdent(name, here.offset, here.line))
    case Eq => next.(pending := w.pending.ObserveAssignment())
    case LParen =>
      next.(pending := if w.parenDepth == 0 then w.pending.ObserveParamListOpen() else w.pending,
            parenDepth := w.parenDepth + 1)
    case RParen => next.(parenDepth := if w.parenDepth == 0 then 0 else w.parenDepth - 1)
    case Arrow => next.(pending := w.pending.(sawArrow := true))
    case LAngle => next.(pending := w.pending.Begun(here.offset).(angleDepth := w.pending.angleDepth + 1))
    case RAngle =>
      next.(pending := w.pending.(angleDepth := if w.pending.angleDepth == 0 then 0 else w.pending.angleDepth - 1))
    case LBrace => Opened(next, here.offset)
    case RBrace => Closed(next)
    case Semi => Ended(next, here.offset)
  }

  /** The walk after `n` iterations, or at its end. */
  ghost function After(tokens: seq<Spanned>, n: nat): Walk {
    if n == 0 then START
    else
      var before := After(tokens, n - 1);
      if before.index < |tokens| then Step(tokens, before) else before
  }

  /** What a `{` does to the walk: it declares a type or a member, or opens a plain block. */
  method OpenBlock(declarations: seq<Declaration>, typeStack: seq<string>, scopes: seq<ScopeKind>, pending: Pending,
                   offset: nat)
    returns (declarations': seq<Declaration>, typeStack': seq<string>, scopes': seq<ScopeKind>)
    ensures forall index, depth ::
              Opened(Walk(index, declarations, typeStack, scopes, pending, depth), offset)
              == Walk(index, declarations', typeStack', scopes', NO_PENDING, depth)
  {
    declarations', typeStack', scopes' := declarations, typeStack, scopes;
    match pending.ClassifyBlock(typeStack) {
      case TypeBlock(kind) =>
        var name := NameOr(pending.typeName);
        declarations' := declarations + [Declaration(kind, name, pending.nameLine, typeStack, pending.Header(offset))];
        typeStack' := typeStack + [name];
        scopes' := scopes + [TypeScope];
      case MemberBlock(kind) =>
        var name := NameOr(pending.methodName);
        declarations' := declarations + [Declaration(kind, name, pending.methodNameLine, typeStack, pending.Header(offset))];
        scopes' := scopes + [MemberScope];
      case AnonymousBlock =>
        scopes' := scopes + [AnonymousScope];
    }
  }

  /** What a token that neither opens, closes nor ends anything does to the walk. */
  method ReadOn(tokens: seq<Spanned>, index: nat, pending: Pending, parenDepth: nat)
    returns (index': nat, pending': Pending, parenDepth': nat)
    requires index < |tokens| && !IsBoundary(tokens[index].token)
    ensures forall declarations, typeStack, scopes ::
              Step(tokens, Walk(index, declarations, typeStack, scopes, pending, parenDepth))
              == Walk(index', declarations, typeStack, scopes, pending', parenDepth')
    ensures index' > index
  {
    var here := tokens[index];
    index', pending', parenDepth' := index + 1, pending, parenDepth;
    match here.token {
      case At =>
        if DeclaresAnnotation(tokens, index + 1) {
          pending' := pending.Begun(here.offset).(kind := Some(Annotation), expectTypeName := true);
          index' := index + 2;
        } else {
          index' := SkipAnnotationUse(tokens, index + 1);
        }
      case Ident(name) => pending' := pending.ObserveIdent(name, here.offset, here.line);
      case Eq => pending' := pending.ObserveAssignment();
      case LParen =>
        if parenDepth == 0 {
          pending' := pending.ObserveParamListOpen();
        }
        parenDepth' := parenDepth + 1;
      case RParen => parenDepth' := if parenDepth == 0 then 0 else parenDepth - 1;
      case Arrow => pending' := pending.(sawArrow := true);
      case LAngle => pending' := pending.Begun(here.offset).(angleDepth := pending.angleDepth + 1);
      case RAngle => pending' := pending.(angleDepth := if pending.angleDepth == 0 then 0 else pending.angleDepth - 1);
    }
  }

  // ----- what a header declares

  /** A word, `<`, or `@interface`: what a declaration begins with. */
  predicate EndsInBeginning(h: seq<Read>) {
    EndsInMark(h) || (h != [] && Final(h).spanned.token.LAngle?)
  }

  predicate EndsInAssignment(h: seq<Read>) {
    h != [] && Final(h).spanned.token.Eq?
  }

  /** An assignment to a word, where no member was named before. */
  ghost predicate EndsInFieldAssignment(h: seq<Read>) {
    EndsInAssignment(h) && WordBefore(h) != [] && Last(WithoutLast(h), EndsInNamingList) == []
  }

  /** How many angle brackets are open. */
  function Angles(h: seq<Read>): nat {
    if h == [] then 0
    else
      var before := Angles(WithoutLast(h));
      match Final(h).spanned.token
      case LAngle => before + 1
      case RAngle => if before == 0 then 0 else before - 1
      case _ => before
  }

  /** A word before the first list and outside angle brackets, if it is no modifier and does not introduce or name a type. */
  ghost predicate EndsInHeaderWord(h: seq<Read>) {
    && EndsInWord(h) && !EndsInClassWord(h) && !ExpectsName(WithoutLast(h))
    && NameOf(Final(h)) != "new" && !IsModifier(NameOf(Final(h)))
    && Angles(WithoutLast(h)) == 0 && Last(WithoutLast(h), EndsInList) == []
  }

  /** How many there are. */
  ghost function HeaderWords(h: seq<Read>): nat {
    if h == [] then 0 else HeaderWords(WithoutLast(h)) + if EndsInHeaderWord(h) then 1 else 0
  }

  /** The header up to the word that its first such assignment is to. */
  ghost function FieldName(h: seq<Read>): seq<Read> {
    WordBefore(First(h, EndsInFieldAssignment))
  }

  function LineIn(h: seq<Read>): nat {
    if h == [] then 0 else Final(h).spanned.line
  }

  function OffsetIn(h: seq<Read>): Option<nat> {
    if h == [] then None else Some(Final(h).spanned.offset)
  }

  /** The kind of type that a class word introduces. */
  function KindIn(h: seq<Read>): Kind
    requires h != []
  {
    if Final(h).spanned.token.At? then Annotation else TypeKind(NameOf(Final(h)))
  }

  /** What a header comes to. */
  ghost function PendingOf(h: seq<Read>): Pending {
    var word, classWord := Last(h, EndsInWord), Last(h, EndsInClassWord);
    Pending(OffsetIn(First(h, EndsInBeginning)), if classWord == [] then None else Some(KindIn(classWord)), ExpectsName(h),
            NameIn(TypeName(h)), LineIn(TypeName(h)), NameIn(word), LineIn(word),
            NameIn(MemberName(h)), LineIn(MemberName(h)), NameIn(FieldName(h)), LineIn(FieldName(h)),
            Last(h, EndsInList) != [], Last(h, EndsInNew) != [], HasArrow(h), Last(h, EndsInAssignment) != [],
            Angles(h), HeaderWords(h))
  }

  /** How each part of a header changes with one more token. */
  lemma OneMoreRead(h: seq<Read>, r: Read)
    ensures var more := h + [r];
            && WithoutLast(more) == h && Final(more) == r
            && First(more, EndsInBeginning)
               == (if First(h, EndsInBeginning) != [] then First(h, EndsInBeginning)
                   else if EndsInBeginning(more) then more else [])
            && First(more, EndsInFieldAssignment)
               == (if First(h, EndsInFieldAssignment) != [] then First(h, EndsInFieldAssignment)
                   else if EndsInFieldAssignment(more) then more else [])
            && Last(more, EndsInWord) == (if EndsInWord(more) then more else Last(h, EndsInWord))
            && Last(more, EndsInMark) == (if EndsInMark(more) then more else Last(h, EndsInMark))
            && Last(more, EndsInClassWord) == (if EndsInClassWord(more) then more else Last(h, EndsInClassWord))
            && Last(more, EndsInTypeName) == (if EndsInTypeName(more) then more else Last(h, EndsInTypeName))
            && Last(more, EndsInNamingList) == (if EndsInNamingList(more) then more else Last(h, EndsInNamingList))
            && Last(more, EndsInList) == (if EndsInList(more) then more else Last(h, EndsInList))
            && Last(more, EndsInNew) == (if EndsInNew(more) then more else Last(h, EndsInNew))
            && Last(more, EndsInArrow) == (if EndsInArrow(more) then more else Last(h, EndsInArrow))
            && Last(more, EndsInAssignment) == (if EndsInAssignment(more) then more else Last(h, EndsInAssignment))
            && HeaderWords(more) == HeaderWords(h) + (if EndsInHeaderWord(more) then 1 else 0)
  {
    LastOfOneMore(h, r, EndsInBeginning);
    LastOfOneMore(h, r, EndsInFieldAssignment);
    LastOfOneMore(h, r, EndsInWord);
    LastOfOneMore(h, r, EndsInMark);
    LastOfOneMore(h, r, EndsInClassWord);
    LastOfOneMore(h, r, EndsInTypeName);
    LastOfOneMore(h, r, EndsInNamingList);
    LastOfOneMore(h, r, EndsInList);
    LastOfOneMore(h, r, EndsInNew);
    LastOfOneMore(h, r, EndsInArrow);
    LastOfOneMore(h, r, EndsInAssignment);
  }

  lemma WordIsObserved(h: seq<Read>, r: Read)
    requires r.spanned.token.Ident?
    ensures PendingOf(h + [r]) == PendingOf(h).ObserveIdent(r.spanned.token.name, r.spanned.offset, r.spanned.line)
  {
    OneMoreRead(h, r);
  }

  lemma ListIsObserved(h: seq<Read>, r: Read)
    requires r.spanned.token.LParen?
    ensures PendingOf(h + [r]) == if r.depth == 0 then PendingOf(h).ObserveParamListOpen() else PendingOf(h)
  {
    OneMoreRead(h, r);
  }

  lemma AssignmentIsObserved(h: seq<Read>, r: Read)
    requires r.spanned.token.Eq?
    ensures PendingOf(h + [r]) == PendingOf(h).ObserveAssignment()
  {
    OneMoreRead(h, r);
    FirstIsShortest(h, EndsInFieldAssignment);
    LastIsLongest(h, EndsInNamingList);
  }

  lemma AngleIsObserved(h: seq<Read>, r: Read)
    requires r.spanned.token.LAngle? || r.spanned.token.RAngle?
    ensures var p := PendingOf(h);
            PendingOf(h + [r])
            == if r.spanned.token.LAngle? then p.Begun(r.spanned.offset).(angleDepth := p.angleDepth + 1)
               else p.(angleDepth := if p.angleDepth == 0 then 0 else p.angleDepth - 1)
  {
    OneMoreRead(h, r);
  }

  lemma AnnotationIsObserved(h: seq<Read>, r: Read)
    requires r.spanned.token.At?
    ensures PendingOf(h + [r])
         == PendingOf(h).Begun(r.spanned.offset).(kind := Some(Annotation), expectTypeName := true)
  {
    OneMoreRead(h, r);
  }

  lemma ArrowIsObserved(h: seq<Read>, r: Read)
    requires r.spanned.token.Arrow?
    ensures PendingOf(h + [r]) == PendingOf(h).(sawArrow := true)
  {
    OneMoreRead(h, r);
  }

  lemma ClosingIsNotObserved(h: seq<Read>, r: Read)
    requires r.spanned.token.RParen?
    ensures PendingOf(h + [r]) == PendingOf(h)
  {
    OneMoreRead(h, r);
  }

  /** What one more token that is no boundary makes of it. */
  function Observed(p: Pending, r: Read): Pending {
    var here := r.spanned;
    match here.token
    case Ident(name) => p.ObserveIdent(name, here.offset, here.line)
    case LParen => if r.depth == 0 then p.ObserveParamListOpen() else p
    case Eq => p.ObserveAssignment()
    case At => p.Begun(here.offset).(kind := Some(Annotation), expectTypeName := true)
    case Arrow => p.(sawArrow := true)
    case LAngle => p.Begun(here.offset).(angleDepth := p.angleDepth + 1)
    case RAngle => p.(angleDepth := if p.angleDepth == 0 then 0 else p.angleDepth - 1)
    case _ => p
  }

  lemma HeaderGrows(h: seq<Read>, r: Read)
    requires !IsBoundary(r.spanned.token)
    ensures PendingOf(h + [r]) == Observed(PendingOf(h), r)
  {
    match r.spanned.token {
      case Ident(_) => WordIsObserved(h, r);
      case LParen => ListIsObserved(h, r);
      case Eq => AssignmentIsObserved(h, r);
      case At => AnnotationIsObserved(h, r);
      case Arrow => ArrowIsObserved(h, r);
      case RParen => ClosingIsNotObserved(h, r);
      case LAngle => AngleIsObserved(h, r);
      case RAngle => AngleIsObserved(h, r);
    }
  }

  /** The walk moves as the reader does, and takes note of what the reader reads. */
  lemma StepObserves(tokens: seq<Spanned>, w: Walk, r: Reader)
    requires w.index == r.index < |tokens| && w.parenDepth == r.depth
    ensures Step(tokens, w).index == ReadNext(tokens, r).index && Step(tokens, w).parenDepth == ReadNext(tokens, r).depth
    ensures var now, next, read := Step(tokens, w), ReadNext(tokens, r), Read(tokens[r.index], r.depth);
            if IsBoundary(read.spanned.token) then next.header == [] && now.pending == NO_PENDING
            else if IsUse(tokens, r.index) then next.header == r.header && now.pending == w.pending
            else next.header == r.header + [read] && now.pending == Observed(w.pending, read)
  {
  }

  /** The walk stands where the reader does, with what its header comes to. */
  ghost predicate Reads(w: Walk, r: Reader) {
    w.index == r.index && w.parenDepth == r.depth && w.pending == PendingOf(r.header)
  }

  lemma EmptyHeader()
    ensures PendingOf([]) == NO_PENDING
  {
  }

  lemma StepReads(tokens: seq<Spanned>, w: Walk, r: Reader)
    requires Reads(w, r) && w.index < |tokens|
    ensures Reads(Step(tokens, w), ReadNext(tokens, r))
  {
    StepObserves(tokens, w, r);
    var read := Read(tokens[r.index], r.depth);
    if IsBoundary(read.spanned.token) {
      EmptyHeader();
    } else if !IsUse(tokens, r.index) {
      HeaderGrows(r.header, read);
    }
  }

  /** The walk knows of the tokens since the last boundary what their header says. */
  lemma {:induction false} HeaderIsRead(tokens: seq<Spanned>, n: nat)
    ensures Reads(After(tokens, n), Reading(tokens, n))
  {
    if n > 0 {
      HeaderIsRead(tokens, n - 1);
      if After(tokens, n - 1).index < |tokens| {
        StepReads(tokens, After(tokens, n - 1), Reading(tokens, n - 1));
      }
    }
  }

  lemma NamesAreWords(h: seq<Read>)
    ensures TypeName(h) != [] ==> Last(h, EndsInClassWord) != []
    ensures MemberName(h) != [] <==> Last(h, EndsInNamingList) != []
    ensures MemberName(h) != [] ==> Last(h, EndsInList) != []
    ensures FieldName(h) != [] <==> First(h, EndsInFieldAssignment) != []
    ensures First(h, EndsInBeginning) == [] ==> Last(h, EndsInWord) == MemberName(h) == FieldName(h) == []
  {
    KindIsKnown(h);
    NamingListIsList(h);
    FirstIsShortest(h, EndsInFieldAssignment);
    WordsBegin(h);
  }

  lemma {:induction false} KindIsKnown(h: seq<Read>)
    ensures ExpectsName(h) ==> Last(h, EndsInClassWord) != []
    ensures TypeName(h) != [] ==> Last(h, EndsInClassWord) != []
  {
    if h != [] {
      KindIsKnown(WithoutLast(h));
    }
  }

  lemma {:induction false} NamingListIsList(h: seq<Read>)
    ensures MemberName(h) != [] <==> Last(h, EndsInNamingList) != []
    ensures MemberName(h) != [] ==> Last(h, EndsInList) != []
  {
    if h != [] && !EndsInNamingList(h) {
      NamingListIsList(WithoutLast(h));
    }
  }

  lemma {:induction false} WordsBegin(h: seq<Read>)
    ensures First(h, EndsInBeginning) == [] ==> Last(h, EndsInWord) == MemberName(h) == FieldName(h) == []
  {
    if h != [] {
      WordsBegin(WithoutLast(h));
    }
  }

  /** The bytes from where the header begins to its end. */
  ghost function RangeOf(h: seq<Read>, end: nat): (nat, nat) {
    var begun := First(h, EndsInBeginning);
    if begun != [] && Final(begun).spanned.offset <= end then (Final(begun).spanned.offset, end) else (0, 0)
  }

  ghost function Declared(h: seq<Read>, kind: Kind, name: seq<Read>, types: seq<string>, end: nat): Declaration
    requires name != []
  {
    Declaration(kind, NameOf(Final(name)), Final(name).spanned.line, types, RangeOf(h, end))
  }

  /** The member is named like the innermost open type, and its name is the only word of its header. */
  ghost predicate NamesConstructor(h: seq<Read>, types: seq<string>) {
    && MemberName(h) != [] && types != [] && types[|types| - 1] == NameOf(Final(MemberName(h)))
    && HeaderWords(h) <= 1
  }

  /** What a `{` behind the header declares: the type it names, or else its member, if no arrow is in between. */
  ghost function BlockOf(h: seq<Read>, types: seq<string>, end: nat): Option<Declaration> {
    if TypeName(h) != [] then
      NamesAreWords(h);
      Some(Declared(h, KindIn(Last(h, EndsInClassWord)), TypeName(h), types, end))
    else if MemberName(h) != [] && !HasArrow(h) then
      Some(Declared(h, if NamesConstructor(h, types) then Constructor else Method, MemberName(h), types, end))
    else None
  }

  /**
   What a `;` behind the header declares: with a list, and no arrow or assignment, the member it names; otherwise the
   field that is assigned to first, or else that the last word names.
   */
  ghost function StatementOf(h: seq<Read>, types: seq<string>, end: nat): Option<Declaration> {
    var withValue := Last(h, EndsInAssignment) != [];
    if Last(h, EndsInList) != [] && !HasArrow(h) && !withValue then
      if MemberName(h) == [] then None else Some(Declared(h, Method, MemberName(h), types, end))
    else if withValue && FieldName(h) != [] then Some(Declared(h, Field, FieldName(h), types, end))
    else if Last(h, EndsInWord) != [] then Some(Declared(h, Field, Last(h, EndsInWord), types, end))
    else None
  }

  /** What the step lists: at a `{` its block, and at a `;` in the body of a type its statement. */
  ghost function ListedBy(tokens: seq<Spanned>, w: Walk, r: Reader): Option<Declaration>
    requires r.index < |tokens|
  {
    match tokens[r.index].token
    case LBrace => BlockOf(r.header, w.typeStack, tokens[r.index].offset)
    case Semi => if InnermostIsType(w.scopes) then StatementOf(r.header, w.typeStack, tokens[r.index].offset) else None
    case _ => None
  }

  ghost function ListedAt(tokens: seq<Spanned>, n: nat): Option<Declaration> {
    if Reading(tokens, n).index < |tokens| then ListedBy(tokens, After(tokens, n), Reading(tokens, n)) else None
  }

  /** What the first `n` steps list, in order. */
  ghost function Listing(tokens: seq<Spanned>, n: nat): seq<Declaration> {
    Collected(m => ListedAt(tokens, m), n)
  }

  lemma BlockIsListed(w: Walk, h: seq<Read>, offset: nat)
    requires w.pending == PendingOf(h)
    ensures Opened(w, offset).declarations == Appended(w.declarations, BlockOf(h, w.typeStack, offset))
  {
    NamesAreWords(h);
  }

  lemma StatementIsListed(p: Pending, h: seq<Read>, types: seq<string>, offset: nat)
    requires p == PendingOf(h)
    ensures p.ClassifyStatement(types, offset) == StatementOf(h, types, offset)
  {
    NamesAreWords(h);
  }

  lemma StepLists(tokens: seq<Spanned>, w: Walk, r: Reader)
    requires Reads(w, r) && r.index < |tokens|
    ensures Step(tokens, w).declarations == Appended(w.declarations, ListedBy(tokens, w, r))
  {
    match tokens[r.index].token {
      case LBrace => BlockIsListed(w.(index := r.index + 1), r.header, tokens[r.index].offset);
      case Semi => StatementIsListed(w.pending, r.header, w.typeStack, tokens[r.index].offset);
      case _ =>
    }
  }

  lemma ListsOneMore(tokens: seq<Spanned>, n: nat)
    ensures After(tokens, n + 1).declarations == Appended(After(tokens, n).declarations, ListedAt(tokens, n))
  {
    HeaderIsRead(tokens, n);
    var w, r := After(tokens, n), Reading(tokens, n);
    if r.index < |tokens| {
      StepLists(tokens, w, r);
      assert After(tokens, n + 1) == Step(tokens, w);
    }
  }

  /** The walk lists exactly what the headers declare. */
  lemma ListsWhatHeadersDeclare(tokens: seq<Spanned>, n: nat)
    ensures After(tokens, n).declarations == Listing(tokens, n)
  {
    var kept := (m: nat, ds: seq<Declaration>) => After(tokens, m).declarations == ds;
    forall m: nat, ds | kept(m, ds)
      ensures kept(m + 1, Appended(ds, ListedAt(tokens, m)))
    {
      ListsOneMore(tokens, m);
    }
    CollectedKeeps(m => ListedAt(tokens, m), kept, n);
  }

  // ----- the list as a whole

  /** A declaration is listed exactly when some step lists it. */
  lemma ListedExactly(tokens: seq<Spanned>, n: nat, d: Declaration)
    ensures d in Listing(tokens, n) <==> exists m: nat :: m < n && ListedAt(tokens, m) == Some(d)
  {
    var found := (m: nat) => ListedAt(tokens, m);
    CollectedExactly(found, n, d);
    forall m: nat
      ensures found(m) == Some(d) <==> ListedAt(tokens, m) == Some(d)
    {
    }
  }

  lemma BlockType(h: seq<Read>, types: seq<string>, end: nat)
    ensures BlockOf(h, types, end).Some? && IsType(BlockOf(h, types, end).value.kind) <==> TypeName(h) != []
    ensures TypeName(h) != [] ==> BlockOf(h, types, end).value.name == NameOf(Final(TypeName(h)))
  {
    NamesAreWords(h);
  }

  lemma StatementType(h: seq<Read>, types: seq<string>, end: nat)
    ensures StatementOf(h, types, end).Some? ==> !IsType(StatementOf(h, types, end).value.kind)
  {
  }

  /** A type is listed exactly at a brace whose header names one. */
  lemma ListedType(tokens: seq<Spanned>, n: nat)
    ensures var r, found := Reading(tokens, n), ListedAt(tokens, n);
            if r.index < |tokens| && tokens[r.index].token.LBrace? && TypeName(r.header) != []
            then found.Some? && IsType(found.value.kind) && found.value.name == NameOf(Final(TypeName(r.header)))
            else found.Some? ==> !IsType(found.value.kind)
  {
    var r, w := Reading(tokens, n), After(tokens, n);
    if r.index < |tokens| {
      BlockType(r.header, w.typeStack, tokens[r.index].offset);
      StatementType(r.header, w.typeStack, tokens[r.index].offset);
    }
  }

  /** The kind of a listed type is that of the last class word of its header. */
  lemma ListedTypeKind(tokens: seq<Spanned>, n: nat)
    requires ListedAt(tokens, n).Some? && IsType(ListedAt(tokens, n).value.kind)
    ensures var word := Last(Reading(tokens, n).header, EndsInClassWord);
            word != [] && match Final(word).spanned.token
                          case At => ListedAt(tokens, n).value.kind == Annotation
                          case Ident(name) =>
                            ListedAt(tokens, n).value.kind
                            == (match name case "class" => Class case "interface" => Interface case "enum" => Enum
                                case _ => Record)
                          case _ => false
  {
    var h := Reading(tokens, n).header;
    NamesAreWords(h);
    LastIsLongest(h, EndsInClassWord);
    ListedType(tokens, n);
  }

  lemma ListedEnclosing(tokens: seq<Spanned>, n: nat, d: Declaration)
    requires ListedAt(tokens, n) == Some(d)
    ensures d.enclosing == After(tokens, n).typeStack
    ensures tokens[Reading(tokens, n).index].token.LBrace? || InnermostIsType(After(tokens, n).scopes)
  {
  }

  /** A `{` whose header names no type but a member, with no arrow, like the innermost open type and as its only word. */
  ghost predicate OpensConstructor(tokens: seq<Spanned>, n: nat, d: Declaration) {
    var r, types := Reading(tokens, n), After(tokens, n).typeStack;
    && r.index < |tokens| && tokens[r.index].token.LBrace?
    && TypeName(r.header) == [] && !HasArrow(r.header) && NamesConstructor(r.header, types)
    && d == Declared(r.header, Constructor, MemberName(r.header), types, tokens[r.index].offset)
  }

  lemma ConstructorIsOpened(tokens: seq<Spanned>, n: nat, d: Declaration)
    ensures ListedAt(tokens, n) == Some(d) && d.kind.Constructor? <==> OpensConstructor(tokens, n, d)
  {
    HeaderIsRead(tokens, n);
  }

  /** A constructor is listed exactly for every such brace. */
  lemma ConstructorsExactly(tokens: seq<Spanned>, n: nat, d: Declaration)
    ensures d in Listing(tokens, n) && d.kind.Constructor? <==> exists m: nat :: m < n && OpensConstructor(tokens, m, d)
  {
    ListedExactly(tokens, n, d);
    forall m: nat
      ensures ListedAt(tokens, m) == Some(d) && d.kind.Constructor? <==> OpensConstructor(tokens, m, d)
    {
      ConstructorIsOpened(tokens, m, d);
    }
  }

  /** Each declaration spans some text, and ends before the next one begins. */
  ghost predicate HeadersInOrder(ds: seq<Declaration>) {
    && (forall i | 0 <= i < |ds| :: ds[i].header.0 < ds[i].header.1)
    && (forall i, j | 0 <= i < j < |ds| :: ds[i].header.1 < ds[j].header.0)
  }

  /** What was listed ends before what is being read, and that before what is to be read. */
  ghost predicate ReadInOrder(tokens: seq<Spanned>, ds: seq<Declaration>, r: Reader) {
    && HeadersInOrder(ds)
    && (forall i, k | 0 <= i < |ds| && 0 <= k < |r.header| :: ds[i].header.1 < r.header[k].spanned.offset)
    && (forall i, k | 0 <= i < |ds| && r.index <= k < |tokens| :: ds[i].header.1 < tokens[k].offset)
    && (forall i, k | 0 <= i < |r.header| && r.index <= k < |tokens| :: r.header[i].spanned.offset < tokens[k].offset)
  }

  lemma RangeBegins(h: seq<Read>, end: nat)
    requires forall k | 0 <= k < |h| :: h[k].spanned.offset < end
    requires First(h, EndsInBeginning) != []
    ensures exists k | 0 <= k < |h| :: RangeOf(h, end) == (h[k].spanned.offset, end)
  {
    FirstIsShortest(h, EndsInBeginning);
    var begun := First(h, EndsInBeginning);
    assert Final(begun) == h[|begun| - 1];
  }

  lemma ListedRange(tokens: seq<Spanned>, w: Walk, r: Reader)
    requires r.index < |tokens| && ListedBy(tokens, w, r).Some?
    ensures ListedBy(tokens, w, r).value.header == RangeOf(r.header, tokens[r.index].offset)
    ensures First(r.header, EndsInBeginning) != [] && IsBoundary(tokens[r.index].token)
  {
    NamesAreWords(r.header);
    TypeNamesBegin(r.header);
  }

  lemma {:induction false} TypeNamesBegin(h: seq<Read>)
    ensures TypeName(h) != [] ==> First(h, EndsInBeginning) != []
  {
    if h != [] {
      TypeNamesBegin(WithoutLast(h));
    }
  }

  lemma ListedInOrder(tokens: seq<Spanned>, ds: seq<Declaration>, r: Reader, d: Declaration)
    requires OffsetsAscend(tokens) && ReadInOrder(tokens, ds, r) && r.index < |tokens|
    requires First(r.header, EndsInBeginning) != [] && d.header == RangeOf(r.header, tokens[r.index].offset)
    ensures ReadInOrder(tokens, ds + [d], Reader(r.index + 1, r.depth, []))
  {
    RangeBegins(r.header, tokens[r.index].offset);
  }

  lemma ReadOnInOrder(tokens: seq<Spanned>, ds: seq<Declaration>, r: Reader)
    requires OffsetsAscend(tokens) && ReadInOrder(tokens, ds, r) && r.index < |tokens|
    ensures ReadInOrder(tokens, ds, ReadNext(tokens, r))
  {
  }

  lemma OneMoreInOrder(tokens: seq<Spanned>, ds: seq<Declaration>, n: nat)
    requires OffsetsAscend(tokens) && ReadInOrder(tokens, ds, Reading(tokens, n))
    ensures ReadInOrder(tokens, Appended(ds, ListedAt(tokens, n)), Reading(tokens, n + 1))
  {
    var w, r := After(tokens, n), Reading(tokens, n);
    if r.index < |tokens| {
      ReadOnInOrder(tokens, ds, r);
      if ListedBy(tokens, w, r).Some? {
        ListedRange(tokens, w, r);
        ListedInOrder(tokens, ds, r, ListedBy(tokens, w, r).value);
      }
    }
  }

  lemma ListingInOrder(tokens: seq<Spanned>, n: nat)
    requires OffsetsAscend(tokens)
    ensures ReadInOrder(tokens, Listing(tokens, n), Reading(tokens, n))
  {
    var kept := (m: nat, ds: seq<Declaration>) => ReadInOrder(tokens, ds, Reading(tokens, m));
    forall m: nat, ds | kept(m, ds)
      ensures kept(m + 1, Appended(ds, ListedAt(tokens, m)))
    {
      OneMoreInOrder(tokens, ds, m);
    }
    CollectedKeeps(m => ListedAt(tokens, m), kept, n);
  }

  /** A header ends at the brace or semicolon that made it a declaration. */
  lemma HeaderEnds(tokens: seq<Spanned>, n: nat, d: Declaration)
    requires OffsetsAscend(tokens) && ListedAt(tokens, n) == Some(d)
    ensures d.header.1 == tokens[Reading(tokens, n).index].offset
  {
    ListingInOrder(tokens, n);
    var r := Reading(tokens, n);
    ListedRange(tokens, After(tokens, n), r);
    RangeBegins(r.header, tokens[r.index].offset);
  }

  /** The headers of the declarations follow one another in the text, none of them empty. */
  lemma HeadersFollowOneAnother(cls: CharClass, source: seq<char>, tokens: seq<Spanned>)
    requires TokensOf(cls, source, tokens)
    ensures HeadersInOrder(Listing(tokens, |tokens|))
  {
    TokensOfInOrder(cls, source, tokens);
    ListingInOrder(tokens, |tokens|);
  }

  lemma NothingLeftToRead(tokens: seq<Spanned>, n: nat)
    requires After(tokens, n).index >= |tokens|
    ensures After(tokens, n + 1) == After(tokens, n)
  {
  }

  lemma {:induction false} StaysAtTheEnd(tokens: seq<Spanned>, n: nat, m: nat)
    requires n <= m && After(tokens, n).index >= |tokens|
    ensures After(tokens, m) == After(tokens, n)
    decreases m - n
  {
    if n < m {
      NothingLeftToRead(tokens, n);
      StaysAtTheEnd(tokens, n + 1, m);
    }
  }

  /** The walk over all the tokens, which takes as many iterations as there are tokens, at most. */
  method Declarations(tokens: seq<Spanned>) returns (declarations: seq<Declaration>)
    ensures After(tokens, |tokens|).index >= |tokens|
    ensures declarations == After(tokens, |tokens|).declarations == Listing(tokens, |tokens|)
  {
    ghost var iterations: nat := 0;
    declarations := [];
    var typeStack: seq<string> := [];
    var scopes: seq<ScopeKind> := [];
    var pending := NO_PENDING;
    var parenDepth: nat := 0;
    var index: nat := 0;
    while index < |tokens|
      invariant iterations <= index && iterations <= |tokens|
      invariant Walk(index, declarations, typeStack, scopes, pending, parenDepth) == After(tokens, iterations)
      decreases |tokens| - index
    {
      var here := tokens[index];
      match here.token {
        case LBrace =>
          declarations, typeStack, scopes := OpenBlock(declarations, typeStack, scopes, pending, here.offset);
          pending := NO_PENDING;
          index := index + 1;
        case RBrace =>
          if scopes != [] {
            if scopes[|scopes| - 1].TypeScope? {
              typeStack := WithoutLast(typeStack);
            }
            scopes := scopes[..|scopes| - 1];
          }
          pending := NO_PENDING;
          index := index + 1;
        case Semi =>
          if InnermostIsType(scopes) {
            match pending.ClassifyStatement(typeStack, here.offset) {
              case Some(declaration) => declarations := declarations + [declaration];
              case None =>
            }
          }
          pending := NO_PENDING;
          index := index + 1;
        case _ =>
          index, pending, parenDepth := ReadOn(tokens, index, pending, parenDepth);
      }
      iterations := iterations + 1;
    }
    StaysAtTheEnd(tokens, iterations, |tokens|);
    ListsWhatHeadersDeclare(tokens, |tokens|);
  }
}
