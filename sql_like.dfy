/** PostgreSQL's `LIKE` and `ILIKE` pattern match, which the college search
    uses with the pattern `%keyword%`.  In a pattern `%` matches any run of
    characters, `_` any one character, and `\` makes the next character
    literal. */
module SqlLike {
  import opened Text

  predicate Like(t: string, p: string)
    decreases |t| + |p|
  {
    if p == [] then t == []
    else if p[0] == '%' then Like(t, p[1..]) || (t != [] && Like(t[1..], p))
    else if p[0] == '_' then t != [] && Like(t[1..], p[1..])
    else if p[0] == '\\' && |p| >= 2 then t != [] && t[0] == p[1] && Like(t[1..], p[2..])
    else t != [] && t[0] == p[0] && Like(t[1..], p[1..])
  }

  /** `ILIKE`: `LIKE` after folding both sides to lower case. */
  predicate ILike(t: string, p: string) {
    Like(Lower(t), Lower(p))
  }

  predicate IsPatternChar(c: char) {
    c == '%' || c == '_' || c == '\\'
  }

  /** A keyword with no character that `LIKE` treats specially. */
  predicate Plain(q: string) {
    forall i :: 0 <= i < |q| ==> !IsPatternChar(q[i])
  }

  /** The pattern the search route builds: `f"%{keyword}%"`, nothing escaped. */
  function SearchPattern(keyword: string): string {
    "%" + keyword + "%"
  }

  lemma {:induction false} LikeAnything(t: string)
    ensures Like(t, "%")
    decreases |t|
  {
    if t != [] {
      LikeAnything(t[1..]);
    }
  }

  /** A plain prefix followed by `%` matches exactly the strings it begins. */
  lemma {:induction false} LikePrefix(t: string, q: string)
    requires Plain(q)
    ensures Like(t, q + "%") <==> q <= t
    decreases |q|
  {
    if q == [] {
      assert q + "%" == "%";
      LikeAnything(t);
    } else {
      assert (q + "%")[0] == q[0] && (q + "%")[1..] == q[1..] + "%";
      assert !IsPatternChar(q[0]);
      if t != [] {
        LikePrefix(t[1..], q[1..]);
        assert q <= t <==> q[0] == t[0] && q[1..] <= t[1..];
      }
    }
  }

  /** A leading `%` lets the rest of the pattern match any suffix. */
  lemma {:induction false} LikeLeadingPercent(t: string, r: string)
    ensures Like(t, "%" + r) <==> exists i :: 0 <= i <= |t| && Like(t[i..], r)
    decreases |t|
  {
    assert ("%" + r)[0] == '%' && ("%" + r)[1..] == r;
    assert t[0..] == t;
    if t != [] {
      LikeLeadingPercent(t[1..], r);
      if exists i :: 0 <= i <= |t[1..]| && Like(t[1..][i..], r) {
        var i :| 0 <= i <= |t[1..]| && Like(t[1..][i..], r);
        assert t[1..][i..] == t[i + 1..];
      }
      if exists i :: 0 <= i <= |t| && Like(t[i..], r) {
        var i :| 0 <= i <= |t| && Like(t[i..], r);
        if i > 0 {
          assert t[1..][i - 1..] == t[i..];
        }
      }
    }
  }

  /** For a keyword without pattern characters, `LIKE '%kw%'` is substring search. */
  lemma LikeSearchIsContains(t: string, q: string)
    requires Plain(q)
    ensures Like(t, SearchPattern(q)) <==> Contains(t, q)
  {
    assert SearchPattern(q) == "%" + (q + "%");
    LikeLeadingPercent(t, q + "%");
    ContainsAt(t, q);
    forall i | 0 <= i <= |t| ensures Like(t[i..], q + "%") <==> q <= t[i..] {
      LikePrefix(t[i..], q);
    }
  }

  lemma LowerPlain(q: string)
    ensures Plain(Lower(q)) <==> Plain(q)
  {
    assert forall i :: 0 <= i < |q| ==> (IsPatternChar(Lower(q)[i]) <==> IsPatternChar(q[i]));
  }

  /** For a keyword without pattern characters, `ILIKE '%kw%'` is
      case-insensitive substring search. */
  lemma ILikeSearchIsContains(t: string, q: string)
    requires Plain(q)
    ensures ILike(t, SearchPattern(q)) <==> Contains(Lower(t), Lower(q))
  {
    LowerAppend("%", q);
    LowerAppend("%" + q, "%");
    assert Lower("%") == "%";
    assert Lower(SearchPattern(q)) == SearchPattern(Lower(q));
    LowerPlain(q);
    LikeSearchIsContains(Lower(t), Lower(q));
  }

  /** `_` is not escaped: the keyword "_" matches every non-empty value. */
  lemma UnderscoreKeywordMatchesAnyChar(t: string)
    ensures Like(t, SearchPattern("_")) <==> t != []
  {
    assert SearchPattern("_") == "%" + "_%";
    LikeLeadingPercent(t, "_%");
    if t != [] {
      assert "_%"[0] == '_' && "_%"[1..] == "%";
      LikeAnything(t[1..]);
      assert t[0..] == t;
    } else {
      assert forall i :: 0 <= i <= |t| ==> t[i..] == [];
    }
  }

  /** `%` is not escaped: the keyword "%" matches every value. */
  lemma PercentKeywordMatchesAll(t: string)
    ensures Like(t, SearchPattern("%"))
  {
    assert SearchPattern("%") == "%" + "%%";
    assert "%%"[0] == '%' && "%%"[1..] == "%";
    LikeAnything(t);
  }
}
