/** lang.celadon.Token's own bracketsMatch, equals, hashCode and toString. They are the
    celadon.Token rules read on the four shared fields (Token.Shape()); the dispatch level and the
    payload take no part in any of them. */
module LangToken {
  import opened Wrappers
  import opened Objects
  import Lexeme

  function ShapeOf(o: Option<Token>): Option<Lexeme.Token>
  {
    if o.None? then None else Some(o.value.Shape())
  }

  /** Token.bracketsMatch: the two tokens carry brackets, exactly one of them closes, and each
      bracket is the mirror image of the other. */
  method BracketsMatch(t: Token, other: Option<Token>) returns (m: bool)
    ensures m == Lexeme.Pairs(t.Shape(), ShapeOf(other))
    ensures m ==> other.Some? && t.bracket.Some? && other.value.bracket.Some?
                  && t.closing != other.value.closing
                  && |t.bracket.value| == |other.value.bracket.value|
    ensures m ==> Lexeme.Pairs(other.value.Shape(), Some(t.Shape()))
  {
    m := Lexeme.BracketsMatch(t.Shape(), ShapeOf(other));
    if m {
      Lexeme.PairsSymmetric(t.Shape(), other.value.Shape());
    }
  }

  /** Token.equals compares contents, bracket and mode (null only equal to null) and the
      closing flag, and nothing else; it is an equivalence on tokens. */
  lemma EqualsIsFieldEquality(t: Token, u: Token, v: Token, o: Obj)
    ensures TokenEquals(t, o) <==>
              o.Tok? && o.token.contents == t.contents && o.token.bracket == t.bracket
              && o.token.mode == t.mode && o.token.closing == t.closing
    ensures TokenEquals(t, Tok(t))
    ensures TokenEquals(t, Tok(u)) ==> TokenEquals(u, Tok(t))
    ensures TokenEquals(t, Tok(u)) && TokenEquals(u, Tok(v)) ==> TokenEquals(t, Tok(v))
  {
  }

  /** Token.hashCode, computed by the celadon.Token loop on the shared fields. */
  method HashCode(t: Token) returns (h: bv32)
    ensures h == Hash(Tok(t))
  {
    h := Lexeme.HashCode(t.Shape());
  }

  /** Equal tokens hash alike, whatever their levels and payloads. */
  lemma EqualTokensHashAlike(t: Token, u: Token)
    requires TokenEquals(t, Tok(u))
    ensures Hash(Tok(t)) == Hash(Tok(u))
  {
    HashAgreesWithEquals(Tok(t), Tok(u));
  }

  /** Token.toString: a token with a bracket and contents renders as mode tag, bracket,
      contents, bracket, so the contents can be cut back out of the text; the level and the
      payload do not show. */
  lemma RenderingDelimitsContents(t: Token, special: int, solid: Obj)
    requires t.bracket.Some? && t.contents.Some?
    ensures var r, k, b := ToString(Tok(t)).value, |Lexeme.ModeTag(t.Shape())|, |t.bracket.value|;
      && |r| == k + 2 * b + |t.contents.value|
      && r[k..k + b] == t.bracket.value
      && r[|r| - b..] == t.bracket.value
      && r[k + b..|r| - b] == t.contents.value
    ensures ToString(Tok(t.(special := special, solid := solid))) == ToString(Tok(t))
  {
    Lexeme.RenderingDelimitsContents(t.Shape());
  }
}
