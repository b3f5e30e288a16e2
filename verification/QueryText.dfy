/** The text of the device query and when one such text occurs inside another
    (HandleDB.c:25-46). */
module QueryText {
  import opened CStrings

  const QUERY_HEAD := "SELECT * FROM device WHERE useragent LIKE '"
  const QUERY_TAIL := "%';"
  const QUOTE: char := '\''

  /** What sprintf writes into tmp_query. */
  function Query(userAgent: string): string {
    QUERY_HEAD + userAgent + QUERY_TAIL
  }

  /** The query and its terminator fit tmp_query, and there is a user agent. */
  predicate Askable(userAgent: string) {
    userAgent != "" && |Query(userAgent)| + 1 <= 128
  }

  lemma QueryIs(ua: string)
    ensures Query(ua) == "SELECT * FROM device WHERE useragent LIKE '" + ua + "%';"
  {
  }

  lemma QueryShape(ua: string)
    ensures |QUERY_HEAD| == 43 && |Query(ua)| == |ua| + 46
    ensures Query(ua)[..43] == QUERY_HEAD && Query(ua)[43..43 + |ua|] == ua
    ensures Query(ua)[43..] == ua + QUERY_TAIL
    ensures Query(ua)[42] == QUOTE && Query(ua)[44 + |ua|] == QUOTE
  {
  }

  lemma HeadQuote(k: nat)
    requires k < 43 && QUERY_HEAD[k] == QUOTE
    ensures k == 42
  {
  }

  /** A quote-free user agent leaves exactly the two quotes of the pattern. */
  lemma QuotesOf(ua: string, k: nat)
    requires Free(ua, QUOTE) && k < |Query(ua)|
    ensures Query(ua)[k] == QUOTE <==> k == 42 || k == 44 + |ua|
  {
    QueryShape(ua);
    if k < 43 {
      assert Query(ua)[k] == QUERY_HEAD[k];
      if QUERY_HEAD[k] == QUOTE { HeadQuote(k); }
    } else {
      assert Query(ua)[k] == Query(ua)[43..][k - 43] == (ua + QUERY_TAIL)[k - 43];
    }
  }

  /** A query occurs in the query of a quote-free user agent exactly when the two
      user agents are equal. */
  lemma QueryLookupExact(stored: string, wanted: string)
    requires Free(stored, QUOTE)
    ensures Contains(Query(stored), Query(wanted)) <==> stored == wanted
  {
    var s, w := Query(stored), Query(wanted);
    QueryShape(stored);
    QueryShape(wanted);
    if Contains(s, w) {
      var k :| 0 <= k <= |s| && OccursAt(s, w, k);
      OccursLetter(s, w, k, 42);
      QuotesOf(stored, k + 42);
      OccursLetter(s, w, k, 44 + |wanted|);
      QuotesOf(stored, k + 44 + |wanted|);
      assert k == 0 && |stored| == |wanted|;
      assert s == w;
      assert stored == s[43..43 + |stored|] && wanted == w[43..43 + |wanted|];
    }
    if stored == wanted {
      assert OccursAt(s, w, 0);
    }
  }

  /** Occurrences of h + y in h + x, for a head whose first letter does not recur in it. */
  lemma SharedHead(h: string, x: string, y: string)
    requires h != "" && forall k | 0 < k < |h| :: h[k] != h[0]
    ensures Contains(h + x, h + y) <==> y <= x || Contains(x, h + y)
  {
    var hx, hy := h + x, h + y;
    if Contains(hx, hy) {
      var k :| 0 <= k <= |hx| && OccursAt(hx, hy, k);
      OccursLetter(hx, hy, k, 0);
      if k < |h| {
        assert k == 0;
        assert y == hy[|h|..] == hx[|h|..|hy|] == x[..|y|];
      } else {
        assert x[k - |h|..k - |h| + |hy|] == hx[k..k + |hy|];
        assert OccursAt(x, hy, k - |h|);
      }
    }
    if y <= x {
      assert hx[..|hy|] == hy;
      assert OccursAt(hx, hy, 0);
    }
    if Contains(x, hy) {
      var k :| 0 <= k <= |x| && OccursAt(x, hy, k);
      assert hx[k + |h|..k + |h| + |hy|] == x[k..k + |hy|];
      assert OccursAt(hx, hy, k + |h|);
    }
  }

  /** For any two user agents: the query is found at the start, when one user agent
      continues the other up to the closing pattern, or inside the stored user agent. */
  lemma QueryLookupInGeneral(stored: string, wanted: string)
    ensures Contains(Query(stored), Query(wanted))
       <==> wanted + QUERY_TAIL <= stored + QUERY_TAIL || Contains(stored + QUERY_TAIL, Query(wanted))
  {
    var x, y := stored + QUERY_TAIL, wanted + QUERY_TAIL;
    assert Query(stored) == QUERY_HEAD + x && Query(wanted) == QUERY_HEAD + y;
    SharedHead(QUERY_HEAD, x, y);
  }

  /** The pattern's end does not come back after the first character, nor its
      beginning before the last one. Quote-free user agents are of this kind. */
  predicate Unmistakable(userAgent: string) {
    && userAgent != ""
    && !Contains(userAgent[1..], QUERY_TAIL)
    && !Contains(userAgent[..|userAgent| - 1], QUERY_HEAD)
  }

  lemma FreeExcludes(s: string, needle: string, j: nat)
    requires j < |needle| && Free(s, needle[j])
    ensures !Contains(s, needle)
  {
    if Contains(s, needle) {
      var k :| 0 <= k <= |s| && OccursAt(s, needle, k);
      OccursLetter(s, needle, k, j);
    }
  }

  lemma QuoteFreeIsUnmistakable(ua: string)
    requires ua != "" && Free(ua, QUOTE)
    ensures Unmistakable(ua)
  {
    QueryShape("");
    assert QUERY_HEAD[42] == Query("")[42] == QUOTE;
    FreeExcludes(ua[1..], QUERY_TAIL, 1);
    FreeExcludes(ua[..|ua| - 1], QUERY_HEAD, 42);
  }

  /** The pattern's end does not overlap itself. */
  lemma TailInside(stored: string, k: nat)
    requires OccursAt(stored + QUERY_TAIL, QUERY_TAIL, k) && k < |stored|
    ensures OccursAt(stored, QUERY_TAIL, k)
  {
    var x := stored + QUERY_TAIL;
    OccursLetter(x, QUERY_TAIL, k, 1);
    OccursLetter(x, QUERY_TAIL, k, 2);
    assert x[|stored|] == '%' && x[|stored| + 1] == QUOTE;
    assert x[k..k + 3] == stored[k..k + 3];
  }

  /** A shorter user agent that the stored one continues up to the closing pattern. */
  lemma ContinuedShowsTail(stored: string, wanted: string)
    requires wanted + QUERY_TAIL <= stored + QUERY_TAIL && wanted != "" && wanted != stored
    ensures Contains(stored[1..], QUERY_TAIL)
  {
    var x, y, k := stored + QUERY_TAIL, wanted + QUERY_TAIL, |wanted|;
    assert x[k..k + 3] == y[k..k + 3] == QUERY_TAIL;
    assert x[..|stored|] == stored && wanted == y[..k] == x[..k];
    TailInside(stored, k);
    assert stored[1..][k - 1..k + 2] == stored[k..k + 3];
    assert OccursAt(stored[1..], QUERY_TAIL, k - 1);
  }

  /** A whole query inside the stored user agent. */
  lemma NestedShowsHead(stored: string, wanted: string)
    requires wanted != "" && Contains(stored + QUERY_TAIL, Query(wanted))
    ensures stored != "" && Contains(stored[..|stored| - 1], QUERY_HEAD)
  {
    var x, q := stored + QUERY_TAIL, Query(wanted);
    QueryShape(wanted);
    var k :| 0 <= k <= |x| && OccursAt(x, q, k);
    assert x[k..k + 43] == x[k..k + |q|][..43] == QUERY_HEAD;
    var front := stored[..|stored| - 1];
    assert front[k..k + 43] == x[k..k + 43];
    assert OccursAt(front, QUERY_HEAD, k);
  }

  lemma MistakenForContinued(stored: string, k: nat) returns (wanted: string)
    requires stored != "" && OccursAt(stored[1..], QUERY_TAIL, k)
    ensures wanted != "" && |wanted| < |stored| && Contains(Query(stored), Query(wanted))
  {
    wanted := stored[..k + 1];
    var x, y := stored + QUERY_TAIL, wanted + QUERY_TAIL;
    assert stored[k + 1..k + 4] == stored[1..][k..k + 3] == QUERY_TAIL;
    assert x[..|y|] == y;
    QueryLookupInGeneral(stored, wanted);
  }

  lemma MistakenForNested(stored: string, k: nat) returns (wanted: string)
    requires stored != "" && OccursAt(stored[..|stored| - 1], QUERY_HEAD, k)
    ensures wanted != "" && |wanted| < |stored| && Contains(Query(stored), Query(wanted))
  {
    QueryShape("");
    wanted := stored[k + 43..];
    var x := stored + QUERY_TAIL;
    assert stored[k..k + 43] == stored[..|stored| - 1][k..k + 43] == QUERY_HEAD;
    assert x[k..] == QUERY_HEAD + wanted + QUERY_TAIL;
    assert x[k..k + |Query(wanted)|] == Query(wanted);
    assert OccursAt(x, Query(wanted), k);
    QueryLookupInGeneral(stored, wanted);
  }

  /** The query of an unmistakable user agent is found for no other one. */
  lemma UnmistakableLookup(stored: string, wanted: string)
    requires Unmistakable(stored) && wanted != ""
    ensures Contains(Query(stored), Query(wanted)) <==> stored == wanted
  {
    if stored == wanted {
      assert OccursAt(Query(stored), Query(wanted), 0);
    } else {
      QueryLookupInGeneral(stored, wanted);
      if wanted + QUERY_TAIL <= stored + QUERY_TAIL {
        ContinuedShowsTail(stored, wanted);
      } else if Contains(stored + QUERY_TAIL, Query(wanted)) {
        NestedShowsHead(stored, wanted);
      }
    }
  }

  /** And only of an unmistakable one: the condition on the stored user agent alone is exact. */
  lemma NeverMistakenExactly(stored: string)
    requires Askable(stored)
    ensures (forall wanted | Askable(wanted) :: Contains(Query(stored), Query(wanted)) <==> stored == wanted)
       <==> Unmistakable(stored)
  {
    if Unmistakable(stored) {
      forall wanted | Askable(wanted)
        ensures Contains(Query(stored), Query(wanted)) <==> stored == wanted
      {
        UnmistakableLookup(stored, wanted);
      }
    } else {
      var wanted := Mistaken(stored);
    }
  }

  /** The shorter user agent for which another one is mistaken. */
  lemma Mistaken(stored: string) returns (wanted: string)
    requires Askable(stored) && !Unmistakable(stored)
    ensures Askable(wanted) && wanted != stored && Contains(Query(stored), Query(wanted))
  {
    QueryShape(stored);
    if Contains(stored[1..], QUERY_TAIL) {
      var k :| 0 <= k <= |stored[1..]| && OccursAt(stored[1..], QUERY_TAIL, k);
      wanted := MistakenForContinued(stored, k);
    } else {
      var front := stored[..|stored| - 1];
      var k :| 0 <= k <= |front| && OccursAt(front, QUERY_HEAD, k);
      wanted := MistakenForNested(stored, k);
    }
    QueryShape(wanted);
  }

  /** An empty slot matches no query. */
  lemma EmptySlotNeverMatches(wanted: string)
    ensures !Contains("", Query(wanted))
  {
    QueryShape(wanted);
  }

  /** Two different user agents of which one is mistaken for the other. */
  lemma QuotedAgentsCanBeConfused()
    ensures exists stored, wanted ::
      Askable(stored) && Askable(wanted) && stored != wanted && Contains(Query(stored), Query(wanted))
  {
    var wanted := "b";
    var stored := Query(wanted);
    QueryShape(wanted);
    QueryShape(stored);
    assert |stored| == 47;
    assert OccursAt(Query(stored), Query(wanted), 43);
  }
}
