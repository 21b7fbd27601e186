/**
 What has been read since the last `{`, `}` or `;`, and what can be told from it: the one place that says which
 tokens name a type or a member, for both Java walks.
 */
module JavaHeaders {
  import opened JavaTokens
  import opened Options

  /** A token read, with the number of lists open before it. An `@` is read only as part of `@interface`. */
  datatype Read = Read(spanned: Spanned, depth: nat)

  datatype Reader = Reader(index: nat, depth: nat, header: seq<Read>)

  const UNREAD := Reader(0, 0, [])

  /** Reads on: annotation uses are passed over, and a boundary begins a new header. */
  ghost function ReadNext(tokens: seq<Spanned>, r: Reader): Reader
    requires r.index < |tokens|
  {
    var more := r.header + [Read(tokens[r.index], r.depth)];
    match tokens[r.index].token
    case At =>
      if DeclaresAnnotation(tokens, r.index + 1) then Reader(r.index + 2, r.depth, more)
      else r.(index := AnnotationEnd(tokens, r.index + 1))
    case LParen => Reader(r.index + 1, r.depth + 1, more)
    case RParen => Reader(r.index + 1, if r.depth == 0 then 0 else r.depth - 1, more)
    case LBrace => Reader(r.index + 1, r.depth, [])
    case RBrace => Reader(r.index + 1, r.depth, [])
    case Semi => Reader(r.index + 1, r.depth, [])
    case _ => Reader(r.index + 1, r.depth, more)
  }

  /** Where the reading stands after `n` steps, or at the end. */
  ghost function Reading(tokens: seq<Spanned>, n: nat): Reader {
    if n == 0 then UNREAD
    else
      var before := Reading(tokens, n - 1);
      if before.index < |tokens| then ReadNext(tokens, before) else before
  }

  predicate IsBoundary(token: Token) {
    token.LBrace? || token.RBrace? || token.Semi?
  }

  /** An annotation use begins here; it is passed over. */
  predicate IsUse(tokens: seq<Spanned>, index: nat)
    requires index < |tokens|
  {
    tokens[index].token.At? && !DeclaresAnnotation(tokens, index + 1)
  }

  // ----- parts of a header

  /** The longest part of the header, from its beginning, that ends in the sign; nothing if none does. */
  ghost function Last(h: seq<Read>, sign: seq<Read> -> bool): seq<Read> {
    if h == [] || sign(h) then h else Last(WithoutLast(h), sign)
  }

  /** The shortest one. */
  ghost function First(h: seq<Read>, sign: seq<Read> -> bool): seq<Read> {
    if h == [] then []
    else
      var earlier := First(WithoutLast(h), sign);
      if earlier != [] then earlier else if sign(h) then h else []
  }

  function Final(h: seq<Read>): Read
    requires h != []
  {
    h[|h| - 1]
  }

  function NameOf(r: Read): string {
    if r.spanned.token.Ident? then r.spanned.token.name else ""
  }

  /** The name the part of the header ends in. */
  function NameIn(h: seq<Read>): Option<string> {
    if h == [] then None else Some(NameOf(Final(h)))
  }

  predicate EndsInWord(h: seq<Read>) {
    h != [] && Final(h).spanned.token.Ident?
  }

  /** A word or `@interface`. */
  predicate EndsInMark(h: seq<Read>) {
    EndsInWord(h) || (h != [] && Final(h).spanned.token.At?)
  }

  /** A word that a type's name follows. */
  predicate EndsInClassWord(h: seq<Read>) {
    h != [] && (Final(h).spanned.token.At? || (EndsInWord(h) && IsClassKeyword(NameOf(Final(h)))))
  }

  /** The last word of the header is one that a type's name follows. */
  ghost predicate ExpectsName(h: seq<Read>) {
    EndsInClassWord(Last(h, EndsInMark))
  }

  /** A word, not itself such a keyword, whose preceding word is one. */
  ghost predicate EndsInTypeName(h: seq<Read>) {
    EndsInWord(h) && !EndsInClassWord(h) && ExpectsName(WithoutLast(h))
  }

  ghost predicate EndsInNew(h: seq<Read>) {
    EndsInWord(h) && NameOf(Final(h)) == "new" && !ExpectsName(WithoutLast(h))
  }

  /** A list opens that is in no other, and no type was named before it. */
  ghost predicate EndsInList(h: seq<Read>) {
    h != [] && Final(h).spanned.token.LParen? && Final(h).depth == 0 && Last(WithoutLast(h), EndsInTypeName) == []
  }

  /** The part of the header up to the last word before its last token. */
  ghost function WordBefore(h: seq<Read>): seq<Read> {
    Last(WithoutLast(h), EndsInWord)
  }

  /** Such a list after a word that is no control keyword, with no `new` before it: that word is a member's name. */
  ghost predicate EndsInNamingList(h: seq<Read>) {
    && EndsInList(h) && WordBefore(h) != [] && !IsControlKeyword(NameOf(Final(WordBefore(h))))
    && Last(WithoutLast(h), EndsInNew) == []
  }

  predicate EndsInArrow(h: seq<Read>) {
    h != [] && Final(h).spanned.token.Arrow?
  }

  // ----- what a header names

  /** The header up to the name of the type it declares; nothing when it declares none. */
  ghost function TypeName(h: seq<Read>): seq<Read> {
    Last(h, EndsInTypeName)
  }

  /** The header up to the name that its last naming list follows. */
  ghost function MemberName(h: seq<Read>): seq<Read> {
    WordBefore(Last(h, EndsInNamingList))
  }

  ghost predicate HasArrow(h: seq<Read>) {
    Last(h, EndsInArrow) != []
  }

  // ----- facts

  lemma LastOfOneMore(h: seq<Read>, r: Read, sign: seq<Read> -> bool)
    ensures WithoutLast(h + [r]) == h && Final(h + [r]) == r
    ensures Last(h + [r], sign) == if sign(h + [r]) then h + [r] else Last(h, sign)
    ensures First(h + [r], sign)
         == if First(h, sign) != [] then First(h, sign) else if sign(h + [r]) then h + [r] else []
  {
    assert (h + [r])[..|h|] == h;
  }

  /** The last part that ends in the sign is the longest of all those that do. */
  lemma {:induction false} LastIsLongest(h: seq<Read>, sign: seq<Read> -> bool)
    ensures Last(h, sign) <= h && (Last(h, sign) != [] ==> sign(Last(h, sign)))
    ensures forall k | |Last(h, sign)| < k <= |h| :: !sign(h[..k])
  {
    if h != [] && !sign(h) {
      var shorter := WithoutLast(h);
      LastIsLongest(shorter, sign);
      forall k | |Last(h, sign)| < k <= |h|
        ensures !sign(h[..k])
      {
        assert if k == |h| then h[..k] == h else h[..k] == shorter[..k];
      }
    }
  }

  /** And the first one the shortest. */
  lemma {:induction false} FirstIsShortest(h: seq<Read>, sign: seq<Read> -> bool)
    ensures First(h, sign) <= h && (First(h, sign) != [] ==> sign(First(h, sign)))
    ensures forall k | 0 < k < |First(h, sign)| :: !sign(h[..k])
    ensures First(h, sign) == [] ==> forall k | 0 < k <= |h| :: !sign(h[..k])
  {
    if h != [] {
      var shorter := WithoutLast(h);
      FirstIsShortest(shorter, sign);
      forall k | 0 < k <= |h|
        ensures h[..k] == if k == |h| then h else shorter[..k]
      {
      }
    }
  }

  // ----- type names, by position

  predicate IsMark(r: Read) {
    r.spanned.token.Ident? || r.spanned.token.At?
  }

  predicate IsClassWord(r: Read) {
    r.spanned.token.At? || (r.spanned.token.Ident? && IsClassKeyword(r.spanned.token.name))
  }

  /** A word at `k` that is no class word follows a class word at `j`, with no word between. */
  ghost predicate NamesType(h: seq<Read>, j: nat, k: nat) {
    && j < k < |h| && IsClassWord(h[j]) && h[k].spanned.token.Ident? && !IsClassWord(h[k])
    && forall i | j < i < k :: !IsMark(h[i])
  }

  lemma TypeNameAt(h: seq<Read>, k: nat)
    requires k < |h|
    ensures EndsInTypeName(h[..k + 1]) <==> exists j: nat :: NamesType(h, j, k)
  {
    var before := h[..k];
    assert WithoutLast(h[..k + 1]) == before;
    var last := Last(before, EndsInMark);
    LastIsLongest(before, EndsInMark);
    if last != [] && EndsInTypeName(h[..k + 1]) {
      forall i | |last| - 1 < i < k
        ensures !IsMark(h[i])
      {
        assert !EndsInMark(before[..i + 1]);
      }
      assert NamesType(h, |last| - 1, k);
    }
    if exists j: nat :: NamesType(h, j, k) {
      var j: nat :| NamesType(h, j, k);
      assert EndsInMark(before[..j + 1]);
      assert last != [] && EndsInMark(before[..|last|]);
      assert IsMark(h[|last| - 1]);
    }
  }

  /** A header names a type exactly when one of its words follows a class word. */
  lemma TypeNameExactly(h: seq<Read>)
    ensures TypeName(h) != [] <==> exists j: nat, k: nat :: NamesType(h, j, k)
  {
    LastIsLongest(h, EndsInTypeName);
    var found := TypeName(h);
    if found != [] {
      TypeNameAt(h, |found| - 1);
      assert h[..|found|] == found;
    } else {
      forall j: nat, k: nat
        ensures !NamesType(h, j, k)
      {
        if j < k < |h| {
          TypeNameAt(h, k);
        }
      }
    }
  }

  lemma NoTypeName(h: seq<Read>)
    requires forall k | 0 <= k < |h| :: !IsClassWord(h[k])
    ensures TypeName(h) == []
  {
    TypeNameExactly(h);
  }

  lemma NoArrow(h: seq<Read>)
    requires forall k | 0 <= k < |h| :: !h[k].spanned.token.Arrow?
    ensures !HasArrow(h)
  {
    LastIsLongest(h, EndsInArrow);
    forall k | 0 < k <= |h|
      ensures Final(h[..k]) == h[k - 1] && !EndsInArrow(h[..k])
    {
    }
    assert Last(h, EndsInArrow) == h[..|Last(h, EndsInArrow)|];
  }

  /** The word at `p` and the list behind it, with no other list outside that one. */
  ghost predicate HasOneList(h: seq<Read>, p: nat) {
    && p + 1 < |h| && h[p].spanned.token.Ident? && h[p + 1].spanned.token.LParen?
    && forall k | 0 <= k < |h| && k != p + 1 && h[k].spanned.token.LParen? :: h[k].depth > 0
  }

  /** `if (..)`, `else if (..)` and the like. */
  ghost predicate IsControlHeader(h: seq<Read>, p: nat) {
    HasOneList(h, p) && IsControlKeyword(NameOf(h[p]))
  }

  /** `name(..`, `x = name(..` and the like, with no class word, no arrow, and no `new` before the list. */
  ghost predicate IsCallHeader(h: seq<Read>, p: nat) {
    && HasOneList(h, p) && h[p + 1].depth == 0 && !IsControlKeyword(NameOf(h[p]))
    && (forall k | 0 <= k <= p :: NameOf(h[k]) != "new")
    && (forall k | 0 <= k < |h| :: !IsClassWord(h[k]) && !h[k].spanned.token.Arrow?)
  }

  lemma WordBeforeList(h: seq<Read>, p: nat)
    requires HasOneList(h, p)
    ensures WithoutLast(h[..p + 2]) == h[..p + 1] && WordBefore(h[..p + 2]) == h[..p + 1] && Final(h[..p + 1]) == h[p]
  {
    assert WithoutLast(h[..p + 2]) == h[..p + 1];
  }

  lemma OneNamingList(h: seq<Read>, p: nat, k: nat)
    requires HasOneList(h, p) && 0 < k <= |h|
    ensures EndsInNamingList(h[..k]) ==> k == p + 2 && !IsControlKeyword(NameOf(h[p]))
  {
    assert Final(h[..k]) == h[k - 1];
    WordBeforeList(h, p);
  }

  lemma NoNew(h: seq<Read>)
    requires forall k | 0 <= k < |h| :: NameOf(h[k]) != "new"
    ensures Last(h, EndsInNew) == []
  {
    LastIsLongest(h, EndsInNew);
    forall k | 0 < k <= |h|
      ensures Final(h[..k]) == h[k - 1] && !EndsInNew(h[..k])
    {
    }
    assert Last(h, EndsInNew) == h[..|Last(h, EndsInNew)|];
  }

  /** A control block has no member name. */
  lemma ControlBlockHasNoMemberName(h: seq<Read>, p: nat)
    requires IsControlHeader(h, p)
    ensures MemberName(h) == []
  {
    LastIsLongest(h, EndsInNamingList);
    var found := Last(h, EndsInNamingList);
    forall k | 0 < k <= |h|
      ensures !EndsInNamingList(h[..k])
    {
      OneNamingList(h, p, k);
    }
    assert found == h[..|found|];
  }

  /** A call has the name called. */
  lemma CallHasItsName(h: seq<Read>, p: nat)
    requires IsCallHeader(h, p)
    ensures TypeName(h) == [] && !HasArrow(h) && MemberName(h) == h[..p + 1] && Final(MemberName(h)) == h[p]
  {
    NoTypeName(h);
    NoArrow(h);
    WordBeforeList(h, p);
    NoTypeName(h[..p + 1]);
    NoNew(h[..p + 1]);
    assert EndsInNamingList(h[..p + 2]);
    LastIsLongest(h, EndsInNamingList);
    var found := Last(h, EndsInNamingList);
    assert found == h[..|found|];
    OneNamingList(h, p, |found|);
  }

  /** Nothing but a word can end in a type name, so the last one is where the words that follow are class words. */
  lemma LastTypeName(h: seq<Read>, j: nat, k: nat)
    requires NamesType(h, j, k) && forall i | k < i < |h| :: !h[i].spanned.token.Ident?
    ensures TypeName(h) == h[..k + 1] && Final(h[..k + 1]) == h[k]
  {
    TypeNameAt(h, k);
    LastIsLongest(h, EndsInTypeName);
    var found := TypeName(h);
    assert Final(found) == h[|found| - 1];
  }
}
