/**
 * SQLite's `LIKE` as match_static_variables uses it: `%` matches any run of
 * characters, `_` any one character, and letters compare without regard to
 * ASCII case. No escape character is set.
 */
module SqlLike {
  import opened Order

  predicate CharEq(a: char, b: char)
  {
    LowerChar(a) == LowerChar(b)
  }

  /** `s LIKE p`. */
  predicate Like(s: string, p: string)
    decreases |p|, |s|
  {
    if |p| == 0 then |s| == 0
    else if p[0] == '%' then Like(s, p[1..]) || (|s| > 0 && Like(s[1..], p))
    else |s| > 0 && (p[0] == '_' || CharEq(s[0], p[0])) && Like(s[1..], p[1..])
  }

  /** Text that holds neither wildcard. */
  predicate NoWild(q: string)
  {
    forall i :: 0 <= i < |q| ==> q[i] != '%' && q[i] != '_'
  }

  /** `q` occurs in `s` at `i`, ignoring ASCII case. */
  predicate FoundAt(s: string, q: string, i: int)
  {
    0 <= i && i + |q| <= |s| && forall k :: 0 <= k < |q| ==> CharEq(s[i + k], q[k])
  }

  /** The pattern `'%' || name || '%' || symbol || '%'`. */
  function Pattern(name: string, symbol: string): string
  {
    ['%'] + (name + (['%'] + (symbol + ['%'])))
  }

  lemma {:induction false} PercentMatchesAll(s: string)
    ensures Like(s, ['%'])
    decreases |s|
  {
    assert ['%'][1..] == [];
    if |s| > 0 { PercentMatchesAll(s[1..]); }
  }

  /** A leading `%` skips any prefix. */
  lemma {:induction false} PercentSkips(s: string, q: string)
    ensures Like(s, ['%'] + q) <==> exists i :: 0 <= i <= |s| && Like(s[i..], q)
    decreases |s|
  {
    var p := ['%'] + q;
    assert p[1..] == q;
    if |s| > 0 {
      PercentSkips(s[1..], q);
      if Like(s, p) {
        if !Like(s, q) {
          var i :| 0 <= i <= |s[1..]| && Like(s[1..][i..], q);
          assert s[1..][i..] == s[i + 1..];
        } else {
          assert s[0..] == s;
        }
      }
      if exists i :: 0 <= i <= |s| && Like(s[i..], q) {
        var i :| 0 <= i <= |s| && Like(s[i..], q);
        if i > 0 {
          assert s[1..][i - 1..] == s[i..];
        } else {
          assert s[0..] == s;
        }
      }
    } else {
      if exists i :: 0 <= i <= |s| && Like(s[i..], q) {
        var i :| 0 <= i <= |s| && Like(s[i..], q);
        assert s[i..] == s;
      }
    }
  }

  /** Text without wildcards matches itself, case aside, character by character. */
  lemma {:induction false} LiteralPrefix(s: string, lit: string, q: string)
    requires NoWild(lit)
    ensures Like(s, lit + q) <==> FoundAt(s, lit, 0) && Like(s[|lit|..], q)
    decreases |lit|
  {
    if |lit| == 0 {
      assert lit + q == q;
    } else {
      var p := lit + q;
      assert p[0] == lit[0] && p[1..] == lit[1..] + q;
      assert NoWild(lit[1..]);
      if |s| > 0 {
        LiteralPrefix(s[1..], lit[1..], q);
        if |lit| <= |s| { assert s[1..][|lit[1..]|..] == s[|lit|..]; }
        if FoundAt(s, lit, 0) {
          assert FoundAt(s[1..], lit[1..], 0) by {
            forall k | 0 <= k < |lit[1..]| ensures CharEq(s[1..][k], lit[1..][k]) {
              assert s[1..][k] == s[k + 1];
            }
          }
        }
        if CharEq(s[0], lit[0]) && FoundAt(s[1..], lit[1..], 0) {
          assert FoundAt(s, lit, 0) by {
            forall k | 0 <= k < |lit| ensures CharEq(s[k], lit[k]) {
              if k > 0 { assert s[k] == s[1..][k - 1]; }
            }
          }
        }
      }
    }
  }

  /** `'%' || lit || rest` finds `lit` somewhere and matches the rest after it. */
  lemma PercentLiteral(s: string, lit: string, rest: string)
    requires NoWild(lit)
    ensures Like(s, ['%'] + (lit + rest)) <==> exists i :: FoundAt(s, lit, i) && Like(s[i + |lit|..], rest)
  {
    PercentSkips(s, lit + rest);
    if Like(s, ['%'] + (lit + rest)) {
      var i :| 0 <= i <= |s| && Like(s[i..], lit + rest);
      LiteralPrefix(s[i..], lit, rest);
      FoundShift(s, lit, i);
      assert s[i..][|lit|..] == s[i + |lit|..];
    }
    if exists i :: FoundAt(s, lit, i) && Like(s[i + |lit|..], rest) {
      var i :| FoundAt(s, lit, i) && Like(s[i + |lit|..], rest);
      FoundShift(s, lit, i);
      LiteralPrefix(s[i..], lit, rest);
      assert s[i..][|lit|..] == s[i + |lit|..];
    }
  }

  lemma FoundShift(s: string, lit: string, i: int)
    requires 0 <= i <= |s|
    ensures FoundAt(s[i..], lit, 0) <==> FoundAt(s, lit, i)
  {
    if FoundAt(s, lit, i) {
      forall k | 0 <= k < |lit| ensures CharEq(s[i..][k], lit[k]) { assert s[i..][k] == s[i + k]; }
    }
    if FoundAt(s[i..], lit, 0) {
      forall k | 0 <= k < |lit| ensures CharEq(s[i + k], lit[k]) { assert s[i..][k] == s[i + k]; }
    }
  }

  /**
   * With no wildcard in either part, the static-variable pattern holds
   * exactly when the variable name occurs, and the function symbol occurs
   * after it, ignoring ASCII case.
   */
  lemma PatternMeansInOrder(s: string, name: string, symbol: string)
    requires NoWild(name) && NoWild(symbol)
    ensures Like(s, Pattern(name, symbol)) <==>
      exists i, j :: FoundAt(s, name, i) && i + |name| <= j && FoundAt(s, symbol, j)
  {
    if Like(s, Pattern(name, symbol)) {
      var i, j := PatternOccurrences(s, name, symbol);
    }
    if exists i, j :: FoundAt(s, name, i) && i + |name| <= j && FoundAt(s, symbol, j) {
      var i, j :| FoundAt(s, name, i) && i + |name| <= j && FoundAt(s, symbol, j);
      PatternFromOccurrences(s, name, symbol, i, j);
    }
  }

  /** Where a string the pattern matches holds the name and, after it, the symbol. */
  lemma PatternOccurrences(s: string, name: string, symbol: string) returns (i: int, j: int)
    requires NoWild(name) && NoWild(symbol) && Like(s, Pattern(name, symbol))
    ensures FoundAt(s, name, i) && i + |name| <= j && FoundAt(s, symbol, j)
  {
    PercentLiteral(s, name, ['%'] + (symbol + ['%']));
    i :| FoundAt(s, name, i) && Like(s[i + |name|..], ['%'] + (symbol + ['%']));
    var t := s[i + |name|..];
    PercentLiteral(t, symbol, ['%']);
    var j' :| FoundAt(t, symbol, j') && Like(t[j' + |symbol|..], ['%']);
    j := i + |name| + j';
    assert FoundAt(s, symbol, j) by {
      forall k | 0 <= k < |symbol| ensures CharEq(s[j + k], symbol[k]) { assert t[j' + k] == s[j + k]; }
    }
  }

  /** The name at `i` and the symbol after it at `j`: the pattern matches. */
  lemma PatternFromOccurrences(s: string, name: string, symbol: string, i: int, j: int)
    requires NoWild(name) && NoWild(symbol)
    requires FoundAt(s, name, i) && i + |name| <= j && FoundAt(s, symbol, j)
    ensures Like(s, Pattern(name, symbol))
  {
    var t := s[i + |name|..];
    var j' := j - i - |name|;
    assert FoundAt(t, symbol, j') by {
      forall k | 0 <= k < |symbol| ensures CharEq(t[j' + k], symbol[k]) { assert t[j' + k] == s[j + k]; }
    }
    PercentMatchesAll(t[j' + |symbol|..]);
    PercentLiteral(t, symbol, ['%']);
    PercentLiteral(s, name, ['%'] + (symbol + ['%']));
  }

  /** An underscore in the variable name is a wildcard: `g_x` also matches `gAx`. */
  lemma UnderscoreIsWildcard()
    ensures Like("gAx", "g_x") && "gAx" != "g_x"
  {
    assert "gAx"[1..] == "Ax" && "g_x"[1..] == "_x";
    assert "Ax"[1..] == "x" && "_x"[1..] == "x";
    assert "x"[1..] == [] ;
  }
}
