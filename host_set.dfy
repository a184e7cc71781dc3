/** The ordered set of strings (`std::set<string16>`) in which the socket
    permission collects host names and domains, and the space-separated join
    of its elements (`JoinString(..., ' ')`).

    An ordered set is represented by the strictly sorted sequence of its
    elements: that sequence is what iterating the set from begin() to end()
    yields, and its length is the set's size(). */
module HostSet {

  /** Strict lexicographic order on strings, character by character, a proper
      prefix coming first: the order an ordered set of strings keeps. */
  predicate Below(a: string, b: string)
    decreases |a|
  {
    if |a| == 0 then |b| > 0
    else |b| > 0 && (a[0] < b[0] || (a[0] == b[0] && Below(a[1..], b[1..])))
  }

  lemma {:induction false} BelowIrreflexive(a: string)
    ensures !Below(a, a)
    decreases |a|
  {
    if |a| > 0 {
      BelowIrreflexive(a[1..]);
    }
  }

  lemma {:induction false} BelowTransitive(a: string, b: string, c: string)
    requires Below(a, b) && Below(b, c)
    ensures Below(a, c)
    decreases |a|
  {
    if |a| > 0 && a[0] == b[0] && b[0] == c[0] {
      BelowTransitive(a[1..], b[1..], c[1..]);
    }
  }

  lemma {:induction false} BelowTotal(a: string, b: string)
    ensures a == b || Below(a, b) || Below(b, a)
    decreases |a|
  {
    if |a| > 0 && |b| > 0 && a[0] == b[0] {
      BelowTotal(a[1..], b[1..]);
      assert a == [a[0]] + a[1..];
      assert b == [b[0]] + b[1..];
    }
  }

  /** The elements of a sequence, as a set. */
  function Elements(s: seq<string>): set<string>
  {
    set x | x in s
  }

  /** `s` lists the elements of an ordered set, in the set's order. */
  predicate StrictlySorted(s: seq<string>)
  {
    forall i, j :: 0 <= i < j < |s| ==> Below(s[i], s[j])
  }

  /** The first element of a strictly sorted sequence is below all the others. */
  lemma HeadIsLeast(s: seq<string>, y: string)
    requires StrictlySorted(s) && |s| > 0 && y in s[1..]
    ensures Below(s[0], y)
  {
    var j :| 1 <= j < |s| && s[j] == y;
  }

  /** Putting an element below all the others in front keeps the order. */
  lemma PrependSorted(h: string, t: seq<string>)
    requires StrictlySorted(t)
    requires forall y :: y in t ==> Below(h, y)
    ensures StrictlySorted([h] + t)
    ensures Elements([h] + t) == {h} + Elements(t)
  {
    forall i, j | 0 <= i < j < |[h] + t| ensures Below(([h] + t)[i], ([h] + t)[j]) {
      if i == 0 {
        assert t[j - 1] in t;
      }
    }
  }

  /** `std::set::insert`: adds `x` unless it is already present, keeping the order. */
  function Insert(s: seq<string>, x: string): (r: seq<string>)
    requires StrictlySorted(s)
    ensures StrictlySorted(r)
    ensures Elements(r) == Elements(s) + {x}
  {
    if s == [] then [x]
    else if x == s[0] then s
    else if Below(x, s[0]) then
      assert forall y :: y in s ==> Below(x, y) by {
        forall y | y in s ensures Below(x, y) {
          if y != s[0] {
            HeadIsLeast(s, y);
            BelowTransitive(x, s[0], y);
          }
        }
      }
      PrependSorted(x, s);
      [x] + s
    else
      var tail := Insert(s[1..], x);
      assert Elements(s) == {s[0]} + Elements(s[1..]) by {
        assert s == [s[0]] + s[1..];
      }
      assert forall y :: y in tail ==> Below(s[0], y) by {
        BelowTotal(x, s[0]);
        forall y | y in tail ensures Below(s[0], y) {
          assert y in Elements(tail);
          if y != x { HeadIsLeast(s, y); }
        }
      }
      PrependSorted(s[0], tail);
      [s[0]] + tail
  }

  /** The elements after the first are the others. */
  lemma TailElements(s: seq<string>)
    requires StrictlySorted(s) && |s| > 0
    ensures Elements(s[1..]) == Elements(s) - {s[0]}
  {
    assert s == [s[0]] + s[1..];
    BelowIrreflexive(s[0]);
    forall y | y in s[1..] ensures y != s[0] {
      HeadIsLeast(s, y);
    }
  }

  /** An ordered set has one listing: two strictly sorted sequences with the
      same elements are equal. Hence the listing of a set does not depend on
      the order in which its elements were inserted. */
  lemma {:induction false} SortedDeterminedByElements(s: seq<string>, t: seq<string>)
    requires StrictlySorted(s) && StrictlySorted(t)
    requires Elements(s) == Elements(t)
    ensures s == t
    decreases |s|
  {
    SortedCardinality(s);
    SortedCardinality(t);
    if s != [] {
      assert s[0] in Elements(t);
      assert t[0] in Elements(s);
      if s[0] != t[0] {
        HeadIsLeast(t, s[0]);
        HeadIsLeast(s, t[0]);
        BelowTransitive(s[0], t[0], s[0]);
        BelowIrreflexive(s[0]);
        assert false;
      }
      TailElements(s);
      TailElements(t);
      SortedDeterminedByElements(s[1..], t[1..]);
      assert s == [s[0]] + s[1..];
      assert t == [t[0]] + t[1..];
    }
  }

  /** The size() of an ordered set is the length of its listing: a strictly
      sorted sequence has no repeated element. */
  lemma {:induction false} SortedCardinality(s: seq<string>)
    requires StrictlySorted(s)
    ensures |Elements(s)| == |s|
    decreases |s|
  {
    if |s| > 0 {
      TailElements(s);
      SortedCardinality(s[1..]);
      assert s[0] in Elements(s);
    }
  }

  /** `JoinString(parts, ' ')`: the parts separated by single spaces. */
  function Join(parts: seq<string>): string
  {
    if |parts| == 0 then ""
    else if |parts| == 1 then parts[0]
    else parts[0] + " " + Join(parts[1..])
  }

  /** Splitting on every space; the inverse of Join for parts without spaces. */
  function Split(s: string): (r: seq<string>)
    ensures |r| > 0
  {
    if |s| == 0 then [""]
    else
      var rest := Split(s[1..]);
      if s[0] == ' ' then [""] + rest else [[s[0]] + rest[0]] + rest[1..]
  }

  lemma {:induction false} SplitWord(p: string)
    requires ' ' !in p
    ensures Split(p) == [p]
    decreases |p|
  {
    if |p| > 0 {
      SplitWord(p[1..]);
      assert p == [p[0]] + p[1..];
    }
  }

  lemma {:induction false} SplitWordThenSpace(p: string, t: string)
    requires ' ' !in p
    ensures Split(p + " " + t) == [p] + Split(t)
    decreases |p|
  {
    var s := p + " " + t;
    if |p| == 0 {
      assert s[1..] == t;
    } else {
      assert s[1..] == p[1..] + " " + t;
      SplitWordThenSpace(p[1..], t);
      assert p == [p[0]] + p[1..];
    }
  }

  /** The joined host list can be read back: splitting it on spaces gives the
      parts again, when there is at least one part and no part holds a space. */
  lemma {:induction false} SplitJoin(parts: seq<string>)
    requires |parts| > 0
    requires forall p :: p in parts ==> ' ' !in p
    ensures Split(Join(parts)) == parts
    decreases |parts|
  {
    if |parts| == 1 {
      SplitWord(parts[0]);
    } else {
      SplitJoin(parts[1..]);
      SplitWordThenSpace(parts[0], Join(parts[1..]));
      assert parts == [parts[0]] + parts[1..];
    }
  }
}
