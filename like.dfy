/** The SQL LIKE operator as the recipe search uses it: `text LIKE '%' || q || '%'`.
    In a pattern '%' matches any run of characters and '_' any one character;
    every other character matches a text character that the column's collation
    deems equal, given here as the relation `eq`. */
module Like {

  function Matches(text: string, pattern: string, eq: (char, char) -> bool): (m: bool)
    decreases |text| + |pattern|
    ensures NoWildcards(pattern) ==>
      (m <==> |text| == |pattern| && forall k :: 0 <= k < |text| ==> eq(text[k], pattern[k]))
  {
    if |pattern| == 0 then |text| == 0
    else if pattern[0] == '%' then
      Matches(text, pattern[1..], eq) || (|text| > 0 && Matches(text[1..], pattern, eq))
    else
      |text| > 0 && (pattern[0] == '_' || eq(text[0], pattern[0]))
      && Matches(text[1..], pattern[1..], eq)
  }

  predicate NoWildcards(q: string)
  {
    forall i :: 0 <= i < |q| ==> q[i] != '%' && q[i] != '_'
  }

  /** q occurs in text starting at position i. */
  predicate OccursAt(text: string, q: string, i: nat, eq: (char, char) -> bool)
  {
    i + |q| <= |text| && forall k :: 0 <= k < |q| ==> eq(text[i + k], q[k])
  }

  predicate Contains(text: string, q: string, eq: (char, char) -> bool)
  {
    exists i :: 0 <= i <= |text| && OccursAt(text, q, i, eq)
  }

  /** A lone '%' matches every text. */
  lemma {:induction false} PercentMatchesAll(text: string, eq: (char, char) -> bool)
    ensures Matches(text, "%", eq)
  {
    assert "%"[1..] == "";
    if |text| > 0 {
      PercentMatchesAll(text[1..], eq);
    }
  }

  /** `q%` matches exactly the texts that start with q. */
  lemma {:induction false} PrefixPattern(text: string, q: string, eq: (char, char) -> bool)
    requires NoWildcards(q)
    ensures Matches(text, q + "%", eq) <==> OccursAt(text, q, 0, eq)
  {
    if |q| == 0 {
      assert q + "%" == "%";
      PercentMatchesAll(text, eq);
    } else {
      assert (q + "%")[1..] == q[1..] + "%";
      if |text| > 0 {
        PrefixPattern(text[1..], q[1..], eq);
        if OccursAt(text, q, 0, eq) {
          assert forall k :: 0 <= k < |q| - 1 ==> eq(text[1..][k], q[1..][k]) by {
            forall k | 0 <= k < |q| - 1 ensures eq(text[1..][k], q[1..][k]) {
              assert eq(text[0 + (k + 1)], q[k + 1]);
            }
          }
        }
        if Matches(text, q + "%", eq) {
          forall k | 0 <= k < |q| ensures eq(text[0 + k], q[k]) {
            if k > 0 {
              assert eq(text[1..][k - 1], q[1..][k - 1]);
            }
          }
        }
      }
    }
  }

  /** `%p` matches exactly the texts with a suffix that p matches. */
  lemma {:induction false} SuffixPattern(text: string, p: string, eq: (char, char) -> bool)
    ensures Matches(text, "%" + p, eq) <==> exists i :: 0 <= i <= |text| && Matches(text[i..], p, eq)
  {
    assert ("%" + p)[1..] == p;
    assert text[0..] == text;
    if |text| > 0 {
      SuffixPattern(text[1..], p, eq);
      if exists i :: 0 <= i <= |text| && Matches(text[i..], p, eq) {
        var i :| 0 <= i <= |text| && Matches(text[i..], p, eq);
        if i > 0 {
          assert text[1..][i - 1..] == text[i..];
        }
      }
      if exists i :: 0 <= i <= |text[1..]| && Matches(text[1..][i..], p, eq) {
        var i :| 0 <= i <= |text[1..]| && Matches(text[1..][i..], p, eq);
        assert text[1..][i..] == text[i + 1..];
      }
    }
  }

  /** For a query without wildcard characters, the search pattern `%q%` is
      exactly a substring test. */
  lemma LikeIsSubstring(text: string, q: string, eq: (char, char) -> bool)
    requires NoWildcards(q)
    ensures Matches(text, "%" + q + "%", eq) <==> Contains(text, q, eq)
  {
    assert "%" + q + "%" == "%" + (q + "%");
    SuffixPattern(text, q + "%", eq);
    forall i | 0 <= i <= |text|
      ensures Matches(text[i..], q + "%", eq) <==> OccursAt(text, q, i, eq)
    {
      PrefixPattern(text[i..], q, eq);
      if OccursAt(text[i..], q, 0, eq) {
        forall k | 0 <= k < |q| ensures eq(text[i + k], q[k]) {
          assert text[i..][0 + k] == text[i + k];
        }
      }
      if OccursAt(text, q, i, eq) {
        forall k | 0 <= k < |q| ensures eq(text[i..][0 + k], q[k]) {
          assert text[i..][0 + k] == text[i + k];
        }
      }
    }
  }

  /** The wildcards of the query are not escaped: '_' in a query matches any
      character, so "a_c" finds "abc". */
  lemma UnderscoreIsWildcard(eq: (char, char) -> bool)
    requires forall c :: eq(c, c)
    ensures Matches("abc", "%a_c%", eq)
  {
    assert "%a_c%"[1..] == "a_c%";
    assert "a_c%"[1..] == "_c%";
    assert "_c%"[1..] == "c%";
    assert "c%"[1..] == "%";
    assert "abc"[1..] == "bc" && "bc"[1..] == "c" && "c"[1..] == "";
    assert Matches("", "%", eq) by { assert "%"[1..] == ""; }
    assert Matches("c", "c%", eq);
    assert Matches("bc", "_c%", eq);
    assert Matches("abc", "a_c%", eq);
  }
}
