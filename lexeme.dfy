/** The token of src/main/java/celadon/Token.java: four public fields, a bracket matcher,
    value equality, a 32-bit hash and a rendering. The newer token of lang.celadon has the same
    four fields with the same code, and reaches these definitions through its Shape(). */
module Lexeme {
  import opened Wrappers
  import opened JavaLang

  /** contents, bracket and mode are Java Strings that may be null. */
  datatype Token = Token(contents: Option<string>, bracket: Option<string>, mode: Option<string>, closing: bool)

  /** regexodus' Category.matchBracket, which is not part of this model. It is taken to
      swap each of ( ) [ ] { } with its partner and to leave every other character alone. */
  function MatchBracket(c: char): (m: char)
    ensures (c in "()[]{}") == (m in "()[]{}")
    ensures c in "()[]{}" ==> m != c
  {
    match c
    case '(' => ')'
    case ')' => '('
    case '[' => ']'
    case ']' => '['
    case '{' => '}'
    case '}' => '{'
    case _ => c
  }

  /** Mirroring twice gives the character back. */
  lemma MatchBracketInvolution(c: char)
    ensures MatchBracket(MatchBracket(c)) == c
  {
  }

  /** Character l of marker b is the mirror of character |b| - 1 - l of marker o. */
  predicate MirrorImage(b: string, o: string)
  {
    |b| == |o| && forall l :: 0 <= l < |b| ==> b[l] == MatchBracket(o[|b| - 1 - l])
  }

  /** When one token closes the region the other opens: both are brackets, exactly one of
      them is a closing one, and their markers are mirror images of each other. */
  predicate Pairs(t: Token, other: Option<Token>)
  {
    && t.bracket.Some? && other.Some? && other.value.bracket.Some?
    && t.closing != other.value.closing
    && MirrorImage(t.bracket.value, other.value.bracket.value)
  }

  /** Token.bracketsMatch: the guard against nulls, equal flags and unequal lengths, then a
      scan with l going up and r going down that gives up at the first unmirrored pair. */
  method BracketsMatch(t: Token, other: Option<Token>) returns (m: bool)
    ensures m == Pairs(t, other)
    ensures t.bracket.None? || other.None? || other.value.bracket.None? ==> !m
    ensures other.Some? && t.closing == other.value.closing ==> !m
    ensures (other.Some? && t.bracket.Some? && other.value.bracket.Some?
             && |t.bracket.value| != |other.value.bracket.value|) ==> !m
  {
    if t.bracket.None? || other.None? || other.value.bracket.None?
       || t.closing == other.value.closing
       || |t.bracket.value| != |other.value.bracket.value| {
      return false;
    }
    var b, o := t.bracket.value, other.value.bracket.value;
    var l, r := 0, |b| - 1;
    while r >= 0
      invariant l + r == |b| - 1 && 0 <= l <= |b|
      invariant forall j :: 0 <= j < l ==> b[j] == MatchBracket(o[|b| - 1 - j])
    {
      if b[l] != MatchBracket(o[r]) {
        return false;
      }
      r, l := r - 1, l + 1;
    }
    return true;
  }

  /** Matching is symmetric: if t pairs with u then u pairs with t. */
  lemma PairsSymmetric(t: Token, u: Token)
    requires Pairs(t, Some(u))
    ensures Pairs(u, Some(t))
  {
    var b, o := t.bracket.value, u.bracket.value;
    forall l | 0 <= l < |o|
      ensures o[l] == MatchBracket(b[|o| - 1 - l])
    {
      var k := |o| - 1 - l;
      assert b[k] == MatchBracket(o[|b| - 1 - k]);
      MatchBracketInvolution(o[l]);
    }
  }

  /** Examples of the mirror relation: "(" pairs with ")", "([" pairs with "])", and "(" does
      not pair with "]". */
  lemma PairsExamples()
    ensures Pairs(Token(None, Some("("), None, false), Some(Token(None, Some(")"), None, true)))
    ensures Pairs(Token(None, Some("(["), None, false), Some(Token(None, Some("])"), None, true)))
    ensures !Pairs(Token(None, Some("("), None, false), Some(Token(None, Some("]"), None, true)))
  {
    var ob := "])";
    assert ob[1] == ')' && ob[0] == ']';
    assert !MirrorImage("(", "]") by { assert "("[0] != MatchBracket("]"[0]); }
  }

  /** Null-aware String equality: a.equals(b) when a is not null, b == null otherwise. */
  predicate SameText(a: Option<string>, b: Option<string>)
  {
    if a.Some? then b.Some? && a.value == b.value else b.None?
  }

  /** Token.equals(o): o is None when it is null or not a Token. Two tokens are equal
      exactly when all four fields agree, so equals is the datatype's own equality. */
  predicate Equals(t: Token, o: Option<Token>)
    ensures Equals(t, o) <==> o == Some(t)
  {
    && o.Some?
    && t.closing == o.value.closing
    && SameText(t.contents, o.value.contents)
    && SameText(t.bracket, o.value.bracket)
    && SameText(t.mode, o.value.mode)
  }

  // ---- hashCode: two 32-bit accumulators folded over contents, mode and bracket ----

  datatype HashState = HashState(z: bv32, result: bv32)

  const HASH_START := HashState(0x632BE5AB, 1)

  /** One character step: result += (z ^= c * 0x85157AF5) + 0x62E2AC0D. */
  function Absorb(st: HashState, c: char): HashState
  {
    var z := st.z ^ (CharUnit(c) * 0x85157AF5);
    HashState(z, st.result + (z + 0x62E2AC0D))
  }

  function Feed(st: HashState, s: string): HashState
    decreases |s|
  {
    if s == [] then st else Feed(Absorb(st, s[0]), s[1..])
  }

  function FeedText(st: HashState, s: Option<string>): HashState
  {
    if s.Some? then Feed(st, s.value) else st
  }

  /** The closing flag adds 421 to z between mode and bracket. */
  function Flag(st: HashState, closing: bool): HashState
  {
    HashState(st.z + (if closing then 421 else 0), st.result)
  }

  /** The final scramble: result ^ ((z ^ result) >>> 8) * 0x9E3779B9. */
  function Finish(st: HashState): bv32
  {
    st.result ^ (((st.z ^ st.result) >> 8) * 0x9E3779B9)
  }

  /** The hash as a function of the four fields. */
  function HashOf(t: Token): bv32
  {
    Finish(FeedText(Flag(FeedText(FeedText(HASH_START, t.contents), t.mode), t.closing), t.bracket))
  }

  /** The loop that feeds one string into the two accumulators. */
  method FeedLoop(z0: bv32, result0: bv32, s: string) returns (z: bv32, result: bv32)
    ensures HashState(z, result) == Feed(HashState(z0, result0), s)
  {
    z, result := z0, result0;
    var i := 0;
    while i < |s|
      invariant 0 <= i <= |s|
      invariant Feed(HashState(z, result), s[i..]) == Feed(HashState(z0, result0), s)
    {
      assert s[i..][0] == s[i] && s[i..][1..] == s[i + 1..];
      var next := Absorb(HashState(z, result), s[i]);
      z, result := next.z, next.result;
      i := i + 1;
    }
  }

  /** Token.hashCode: it reads contents, mode, closing and bracket and nothing else. */
  method HashCode(t: Token) returns (h: bv32)
    ensures h == HashOf(t)
  {
    var z: bv32, result: bv32 := 0x632BE5AB, 1;
    if t.contents.Some? {
      z, result := FeedLoop(z, result, t.contents.value);
    }
    if t.mode.Some? {
      z, result := FeedLoop(z, result, t.mode.value);
    }
    var flagged := Flag(HashState(z, result), t.closing);
    z := flagged.z;
    if t.bracket.Some? {
      z, result := FeedLoop(z, result, t.bracket.value);
    }
    h := Finish(HashState(z, result));
  }

  /** Equal tokens have equal hash codes. */
  lemma EqualsHashConsistent(t: Token, u: Token)
    requires Equals(t, Some(u))
    ensures HashOf(t) == HashOf(u)
  {
  }

  // ---- toString ----

  /** "#" + mode in front of a bracket, when the token has a mode. */
  function ModeTag(t: Token): string
  {
    if t.mode.Some? then "#" + t.mode.value else ""
  }

  /** Token.toString. */
  function ToString(t: Token): (r: string)
    ensures t.bracket.None? && t.contents.None? ==> r == "null"
    ensures t.bracket.None? && t.contents.Some? ==> r == t.contents.value
    ensures t.bracket.Some? ==> |ModeTag(t)| <= |r| && r[..|ModeTag(t)|] == ModeTag(t)
    ensures t.bracket.Some? && t.contents.None? ==> r == ModeTag(t) + t.bracket.value
  {
    if t.bracket.Some? then
      if t.contents.Some? then ModeTag(t) + t.bracket.value + t.contents.value + t.bracket.value
      else ModeTag(t) + t.bracket.value
    else if t.contents.None? then "null"
    else t.contents.value
  }

  /** A delimited token renders as its mode tag, its bracket, its contents and its bracket
      again, so the contents can be cut back out of the text. */
  lemma RenderingDelimitsContents(t: Token)
    requires t.bracket.Some? && t.contents.Some?
    ensures var r, k, b := ToString(t), |ModeTag(t)|, |t.bracket.value|;
      && |r| == k + 2 * b + |t.contents.value|
      && r[k..k + b] == t.bracket.value
      && r[|r| - b..] == t.bracket.value
      && r[k + b..|r| - b] == t.contents.value
  {
    var r, tag, b, c := ToString(t), ModeTag(t), t.bracket.value, t.contents.value;
    assert r == tag + b + c + b;
    assert r[|tag|..|tag| + |b|] == b;
    assert r[|r| - |b|..] == b;
    assert r[|tag| + |b|..|r| - |b|] == c;
  }
}
