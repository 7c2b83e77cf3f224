// What Python's str.strip does to a string.
module Strings {

  // White space as str.strip understands it.
  predicate Blank(c: char) {
    || c in {' ', '\t', '\n', '\r', '\U{0B}', '\U{0C}', '\U{1C}', '\U{1D}', '\U{1E}', '\U{1F}', '\U{85}', '\U{A0}'}
    || c in {'\U{1680}', '\U{2028}', '\U{2029}', '\U{202F}', '\U{205F}', '\U{3000}'}
    || '\U{2000}' <= c <= '\U{200A}'
  }

  // By code point: the separators and spaces of Unicode, and the controls that str.isspace counts among them.
  lemma BlankExactly(c: char)
    ensures Blank(c) <==>
            var n := c as int;
            9 <= n <= 13 || 28 <= n <= 32 || n == 133 || n == 160 || n == 5760 || 8192 <= n <= 8202
            || n == 8232 || n == 8233 || n == 8239 || n == 8287 || n == 12288
  {
  }

  function StripLeft(t: string): string {
    if t != "" && Blank(t[0]) then StripLeft(t[1..]) else t
  }

  function StripRight(t: string): string {
    if t != "" && Blank(t[|t| - 1]) then StripRight(t[..|t| - 1]) else t
  }

  function Strip(t: string): string {
    StripRight(StripLeft(t))
  }

  ghost predicate Trimmed(t: string) {
    t != "" ==> !Blank(t[0]) && !Blank(t[|t| - 1])
  }

  ghost predicate AllBlank(t: string) {
    forall k | 0 <= k < |t| :: Blank(t[k])
  }

  lemma {:induction false} StripLeftCuts(t: string) returns (a: nat)
    ensures a <= |t| && StripLeft(t) == t[a..] && AllBlank(t[..a]) && (a < |t| ==> !Blank(t[a]))
    decreases |t|
  {
    if t != "" && Blank(t[0]) {
      var n := StripLeftCuts(t[1..]);
      a := n + 1;
      assert t[1..][n..] == t[a..];
      forall k | 0 <= k < a
        ensures Blank(t[..a][k])
      {
        if k > 0 {
          assert t[..a][k] == t[1..][..n][k - 1];
        }
      }
    } else {
      a := 0;
    }
  }

  lemma {:induction false} StripRightCuts(t: string) returns (b: nat)
    ensures b <= |t| && StripRight(t) == t[..b] && AllBlank(t[b..]) && (b > 0 ==> !Blank(t[b - 1]))
    decreases |t|
  {
    if t != "" && Blank(t[|t| - 1]) {
      var n := StripRightCuts(t[..|t| - 1]);
      b := n;
      assert t[..|t| - 1][..n] == t[..b];
      forall k | 0 <= k < |t| - b
        ensures Blank(t[b..][k])
      {
        if k < |t| - b - 1 {
          assert t[b..][k] == t[..|t| - 1][n..][k];
        }
      }
    } else {
      b := |t|;
    }
  }

  // Stripping cuts blanks, and only blanks, off both ends.
  lemma StripCuts(t: string) returns (a: nat, b: nat)
    ensures a <= b <= |t| && Strip(t) == t[a..b] && AllBlank(t[..a]) && AllBlank(t[b..]) && Trimmed(Strip(t))
    ensures a == b ==> AllBlank(t)
  {
    a := StripLeftCuts(t);
    var n := StripRightCuts(t[a..]);
    b := a + n;
    assert t[a..][..n] == t[a..b];
    assert t[a..][n..] == t[b..];
    if a == b {
      assert t == t[..a] + t[b..];
    } else {
      assert t[a..][n - 1] == t[b - 1] == t[a..b][n - 1];
      assert t[a..][0] == t[a] == t[a..b][0] by {
        assert |StripLeft(t)| > 0;
      }
    }
  }

  // Strip is determined by what it cuts.
  lemma StripIs(t: string, a: nat, b: nat)
    requires a <= b <= |t| && AllBlank(t[..a]) && AllBlank(t[b..]) && Trimmed(t[a..b])
    requires a == b ==> AllBlank(t)
    ensures Strip(t) == t[a..b]
  {
    var c, d := StripCuts(t);
    assert forall k | 0 <= k < |t| :: (k < a ==> t[..a][k] == t[k]) && (k >= b ==> t[b..][k - b] == t[k]);
    assert forall k | 0 <= k < |t| :: (k < c ==> t[..c][k] == t[k]) && (k >= d ==> t[d..][k - d] == t[k]);
    if a < b {
      assert t[a..b][0] == t[a] && t[a..b][b - a - 1] == t[b - 1];
      assert c < d;
      assert t[c..d][0] == t[c] && t[c..d][d - c - 1] == t[d - 1];
      assert a == c && b == d;
    }
  }
}
