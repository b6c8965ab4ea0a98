/** Byte-wise lexicographic order: the order in which Redis keeps the members of a sorted
    set whose scores are all equal. Strings are sequences of byte values. */
module Lex {

  type Bytes = seq<int>

  predicate Less(s: Bytes, t: Bytes)
    decreases |s|
  {
    |t| > 0 && (|s| == 0 || s[0] < t[0] || (s[0] == t[0] && Less(s[1..], t[1..])))
  }

  /** Exactly one of s < t, s == t, t < s holds. */
  lemma {:induction false} LessTrichotomy(s: Bytes, t: Bytes)
    ensures !(Less(s, t) && Less(t, s))
    ensures Less(s, t) || Less(t, s) <==> s != t
    decreases |s|
  {
    if |s| > 0 && |t| > 0 {
      LessTrichotomy(s[1..], t[1..]);
      assert s == [s[0]] + s[1..] && t == [t[0]] + t[1..];
    }
  }

  lemma {:induction false} LessTransitive(s: Bytes, t: Bytes, r: Bytes)
    requires Less(s, t) && Less(t, r)
    ensures Less(s, r)
    decreases |s|
  {
    if |s| > 0 && s[0] == t[0] == r[0] {
      LessTransitive(s[1..], t[1..], r[1..]);
    }
  }

  /** Fixed-width fields compare field by field. */
  lemma {:induction false} LessFields(a: Bytes, b: Bytes, s: Bytes, t: Bytes)
    requires |a| == |b|
    ensures Less(a + s, b + t) <==> Less(a, b) || (a == b && Less(s, t))
    decreases |a|
  {
    if |a| == 0 {
      assert a + s == s && b + t == t;
    } else {
      assert (a + s)[1..] == a[1..] + s && (b + t)[1..] == b[1..] + t;
      assert a == [a[0]] + a[1..] && b == [b[0]] + b[1..];
      LessFields(a[1..], b[1..], s, t);
    }
  }

  /** Any non-empty finite set of strings has a greatest element. */
  lemma {:induction false} GreatestExists(members: set<Bytes>) returns (top: Bytes)
    requires members != {}
    ensures top in members
    ensures forall m | m in members && m != top :: Less(m, top)
    decreases members
  {
    top :| top in members;
    var rest := members - {top};
    assert members == rest + {top};
    if rest != {} {
      var next := GreatestExists(rest);
      LessTrichotomy(top, next);
      if Less(top, next) {
        top := next;
      } else {
        forall m | m in members && m != top ensures Less(m, top) {
          if m != next { LessTransitive(m, next, top); }
        }
      }
    }
  }
}
