/** The few functions of Go's strings package the services use. */
module GoStrings {
  /** unicode.IsSpace. */
  predicate IsSpace(c: char) {
    || '\U{9}' <= c <= '\U{D}' || c == ' ' || c == '\U{85}' || c == '\U{A0}' || c == '\U{1680}'
    || '\U{2000}' <= c <= '\U{200A}' || c in {'\U{2028}', '\U{2029}', '\U{202F}', '\U{205F}', '\U{3000}'}
  }

  function TrimLeft(s: string): string {
    if |s| > 0 && IsSpace(s[0]) then TrimLeft(s[1..]) else s
  }

  function TrimRight(s: string): string {
    if |s| > 0 && IsSpace(s[|s| - 1]) then TrimRight(s[..|s| - 1]) else s
  }

  function TrimSpace(s: string): string { TrimRight(TrimLeft(s)) }

  /** The 25 white space characters of Unicode. */
  const SPACES := {
    '\t', '\n', '\U{B}', '\U{C}', '\r', ' ', '\U{85}', '\U{A0}', '\U{1680}', '\U{2000}', '\U{2001}', '\U{2002}',
    '\U{2003}', '\U{2004}', '\U{2005}', '\U{2006}', '\U{2007}', '\U{2008}', '\U{2009}', '\U{200A}', '\U{2028}',
    '\U{2029}', '\U{202F}', '\U{205F}', '\U{3000}'
  }

  lemma SpaceIff(c: char)
    ensures IsSpace(c) <==> c in SPACES
  {
  }

  predicate AllSpaces(s: string) { forall c :: c in s ==> c in SPACES }

  lemma {:induction false} TrimLeftCuts(s: string) returns (left: string)
    ensures s == left + TrimLeft(s) && AllSpaces(left)
    ensures TrimLeft(s) == "" || TrimLeft(s)[0] !in SPACES
  {
    if |s| == 0 {
      left := "";
    } else {
      SpaceIff(s[0]);
      if IsSpace(s[0]) {
        var rest := TrimLeftCuts(s[1..]);
        left := [s[0]] + rest;
        assert s == [s[0]] + s[1..];
      } else {
        left := "";
      }
    }
  }

  lemma {:induction false} TrimRightCuts(s: string) returns (right: string)
    ensures s == TrimRight(s) + right && AllSpaces(right)
    ensures TrimRight(s) == "" || TrimRight(s)[|TrimRight(s)| - 1] !in SPACES
  {
    if |s| == 0 {
      right := "";
    } else {
      var last := s[|s| - 1];
      SpaceIff(last);
      if IsSpace(last) {
        var rest := TrimRightCuts(s[..|s| - 1]);
        right := rest + [last];
        assert s == s[..|s| - 1] + [last];
      } else {
        right := "";
      }
    }
  }

  /** White space is cut off at both ends, and only there. */
  lemma TrimSpaceCuts(s: string) returns (left: string, right: string)
    ensures s == left + TrimSpace(s) + right && AllSpaces(left) && AllSpaces(right)
    ensures TrimSpace(s) == "" || (TrimSpace(s)[0] !in SPACES && TrimSpace(s)[|TrimSpace(s)| - 1] !in SPACES)
  {
    left := TrimLeftCuts(s);
    right := TrimRightCuts(TrimLeft(s));
    assert TrimSpace(s) != "" ==> TrimLeft(s)[0] == TrimSpace(s)[0];
  }
}
