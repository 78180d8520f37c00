/** The per-user list of refresh tokens and the array operations the
    controller applies to it. */
module TokenList {

  /** refreshToken.filter(token => token !== t): every occurrence of `t` is
      dropped, every other token keeps its multiplicity. */
  function Without(s: seq<string>, t: string): (r: seq<string>)
    ensures |r| <= |s|
    ensures forall x :: x in r ==> x in s && x != t
  {
    if s == [] then []
    else (if s[0] == t then [] else [s[0]]) + Without(s[1..], t)
  }

  /** Filtering removes every occurrence of `t` and keeps every other token
      as often as it occurred. */
  lemma {:induction false} WithoutCounts(s: seq<string>, t: string)
    ensures multiset(Without(s, t)) == multiset(s)[t := 0]
  {
    if s != [] {
      WithoutCounts(s[1..], t);
      assert s == [s[0]] + s[1..];
    }
  }

  /** Filtering shortens the list by exactly the number of occurrences removed. */
  lemma WithoutLength(s: seq<string>, t: string)
    ensures |Without(s, t)| == |s| - multiset(s)[t]
    ensures t !in Without(s, t)
  {
    var r := Without(s, t);
    WithoutCounts(s, t);
    assert |multiset(r)| == |r| && |multiset(s)| == |s|;
    assert multiset(s) == multiset(r) + multiset{}[t := multiset(s)[t]];
    assert t !in multiset(r);
  }

  /** Filtering distributes over concatenation, so the kept tokens stay in
      their original order. */
  lemma {:induction false} WithoutConcat(a: seq<string>, b: seq<string>, t: string)
    ensures Without(a + b, t) == Without(a, t) + Without(b, t)
  {
    if a == [] {
      assert a + b == b;
    } else {
      WithoutConcat(a[1..], b, t);
      var ab := a + b;
      assert ab[0] == a[0] && ab[1..] == a[1..] + b;
      var h := if a[0] == t then [] else [a[0]];
      calc {
        Without(ab, t);
        h + Without(a[1..] + b, t);
        h + (Without(a[1..], t) + Without(b, t));
        (h + Without(a[1..], t)) + Without(b, t);
      }
    }
  }

  /** Filtering out a token that is not present changes nothing. */
  lemma {:induction false} WithoutAbsent(s: seq<string>, t: string)
    requires t !in s
    ensures Without(s, t) == s
  {
    if s != [] {
      WithoutAbsent(s[1..], t);
      assert s == [s[0]] + s[1..];
    }
  }
}
