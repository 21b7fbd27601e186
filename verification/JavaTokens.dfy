/** The tokens both Java walks read, and the one walking rule they share: how an annotation is passed over. */
module JavaTokens {

  datatype Token =
    | Ident(name: string)
    | LBrace
    | RBrace
    | LParen
    | RParen
    | Semi
    | At
    | Arrow
    | Eq
    | LAngle
    | RAngle

  /** A token with the 1-based line and the byte offset it begins at. */
  datatype Spanned = Spanned(token: Token, line: nat, offset: nat)

  ghost predicate OffsetsAscend(tokens: seq<Spanned>) {
    forall i, j | 0 <= i < j < |tokens| :: tokens[i].offset < tokens[j].offset
  }

  /** What is left of a stack after a pop. */
  function WithoutLast<T>(s: seq<T>): seq<T> {
    if s == [] then s else s[..|s| - 1]
  }

  predicate IsClassKeyword(name: string) {
    name == "class" || name == "interface" || name == "enum" || name == "record"
  }

  predicate IsControlKeyword(name: string) {
    || name == "if" || name == "for" || name == "while" || name == "switch"
    || name == "catch" || name == "synchronized" || name == "try"
  }

  predicate IsModifier(name: string) {
    || name == "public" || name == "private" || name == "protected" || name == "static" || name == "final"
    || name == "abstract" || name == "synchronized" || name == "native" || name == "strictfp"
    || name == "default" || name == "transient" || name == "volatile" || name == "sealed"
  }

  /** The words of the three lists. */
  lemma WordLists(name: string)
    ensures IsClassKeyword(name) <==> name in {"class", "interface", "enum", "record"}
    ensures IsControlKeyword(name) <==> name in {"if", "for", "while", "switch", "catch", "synchronized", "try"}
    ensures IsModifier(name) <==> name in {"public", "private", "protected", "static", "final", "abstract", "synchronized",
                                           "native", "strictfp", "default", "transient", "volatile", "sealed"}
  {
  }

  predicate IsIdent(tokens: seq<Spanned>, index: nat) {
    index < |tokens| && tokens[index].token.Ident?
  }

  predicate OpensList(tokens: seq<Spanned>, index: nat) {
    index < |tokens| && tokens[index].token.LParen?
  }

  /** An `@` directly before the word `interface` declares an annotation type. */
  predicate DeclaresAnnotation(tokens: seq<Spanned>, index: nat) {
    IsIdent(tokens, index) && tokens[index].token.name == "interface"
  }

  /** How many lists are open after `tokens[from..end]`, closing ones counted against them. */
  function Nesting(tokens: seq<Spanned>, from: nat, end: nat): int
    requires from <= end <= |tokens|
  {
    if from == end then 0
    else
      Nesting(tokens, from, end - 1)
      + (match tokens[end - 1].token case LParen => 1 case RParen => -1 case _ => 0)
  }

  /** `end` is the first position after `from` where every list opened from `from` on is closed again, or the end. */
  ghost predicate ListEnds(tokens: seq<Spanned>, from: nat, end: nat) {
    && from < end <= |tokens|
    && (forall k | from < k < end :: Nesting(tokens, from, k) > 0)
    && (Nesting(tokens, from, end) == 0 || (end == |tokens| && Nesting(tokens, from, end) > 0))
  }

  /**
   Where an annotation use ends for the walks: after the first segment of its name, and after the list that opens right
   behind that segment, if one does.
   */
  ghost predicate AnnotationEnds(tokens: seq<Spanned>, index: nat, end: nat) {
    var afterName := if IsIdent(tokens, index) then index + 1 else index;
    if OpensList(tokens, afterName) then ListEnds(tokens, afterName, end) else end == afterName
  }

  lemma ListEndUnique(tokens: seq<Spanned>, from: nat, a: nat, b: nat)
    requires ListEnds(tokens, from, a) && ListEnds(tokens, from, b)
    ensures a == b
  {
  }

  /** There is one such end, so whoever skips an annotation by this rule gets to the same token. */
  lemma AnnotationEndUnique(tokens: seq<Spanned>, index: nat, a: nat, b: nat)
    requires AnnotationEnds(tokens, index, a) && AnnotationEnds(tokens, index, b)
    ensures a == b
  {
    var afterName := if IsIdent(tokens, index) then index + 1 else index;
    if OpensList(tokens, afterName) {
      ListEndUnique(tokens, afterName, a, b);
    }
  }

  /** The first end at or after `at`. */
  ghost function FirstEnd(tokens: seq<Spanned>, from: nat, at: nat): (end: nat)
    requires from < at <= |tokens| && Nesting(tokens, from, at) >= 0
    requires forall k | from < k < at :: Nesting(tokens, from, k) > 0
    ensures ListEnds(tokens, from, end)
    decreases |tokens| - at
  {
    if at == |tokens| || Nesting(tokens, from, at) == 0 then at else FirstEnd(tokens, from, at + 1)
  }

  ghost function AnnotationEnd(tokens: seq<Spanned>, index: nat): (end: nat)
    requires index <= |tokens|
    ensures AnnotationEnds(tokens, index, end) && index <= end <= |tokens|
  {
    var afterName := if IsIdent(tokens, index) then index + 1 else index;
    if OpensList(tokens, afterName) then
      assert Nesting(tokens, afterName, afterName) == 0;
      FirstEnd(tokens, afterName, afterName + 1)
    else afterName
  }

  /** Where an annotation use whose name has the given number of segments does end. Dots are no tokens. */
  ghost predicate UseEnds(tokens: seq<Spanned>, index: nat, segments: nat, end: nat) {
    var afterName := index + segments;
    && (forall k | index <= k < afterName :: IsIdent(tokens, k))
    && if OpensList(tokens, afterName) then ListEnds(tokens, afterName, end) else end == afterName
  }

  /** The walks pass over an annotation use whole exactly when its name has one segment. */
  lemma UsePassedOverExactly(tokens: seq<Spanned>, index: nat, segments: nat, end: nat)
    requires index <= |tokens| && segments >= 1 && UseEnds(tokens, index, segments, end)
    ensures AnnotationEnd(tokens, index) == end <==> segments == 1
    ensures segments > 1 ==> AnnotationEnd(tokens, index) == index + 1
  {
    assert IsIdent(tokens, index);
    if segments == 1 {
      AnnotationEndUnique(tokens, index, end, AnnotationEnd(tokens, index));
    } else {
      assert IsIdent(tokens, index + 1);
    }
  }

  /** Skips an annotation use beginning after its `@`. */
  method SkipAnnotationUse(tokens: seq<Spanned>, start: nat) returns (index: nat)
    requires start <= |tokens|
    ensures AnnotationEnds(tokens, start, index) && index == AnnotationEnd(tokens, start)
  {
    ghost var end := AnnotationEnd(tokens, start);
    index := start;
    if IsIdent(tokens, index) {
      index := index + 1;
    }
    if OpensList(tokens, index) {
      ghost var from := index;
      var depth := 0;
      while index < |tokens|
        invariant from <= index <= |tokens|
        invariant depth == Nesting(tokens, from, index)
        invariant index == from || depth > 0
        invariant forall k | from < k <= index :: Nesting(tokens, from, k) > 0
      {
        match tokens[index].token {
          case LParen => depth := depth + 1;
          case RParen =>
            depth := depth - 1;
            if depth == 0 {
              assert Nesting(tokens, from, index + 1) == 0;
              AnnotationEndUnique(tokens, start, index + 1, end);
              return index + 1;
            }
          case _ =>
        }
        index := index + 1;
      }
    }
    AnnotationEndUnique(tokens, start, index, end);
  }
}
