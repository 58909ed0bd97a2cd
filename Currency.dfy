/**
 * Currency-text stripping: before a sales or profit amount stored as text
 * such as "$1,234.50" is cast to a number, every '$' and every ',' is removed.
 * The dashboard does this in two places: in SQL as two nested REPLACE calls,
 * and in pandas as a regular-expression replacement of the class [$,] by
 * nothing. Both are modelled, and shown to agree.
 */
module Currency {

  /** The characters removed before a cast: the dollar sign and the group separator. */
  predicate IsStripped(c: char)
  {
    c == '$' || c == ','
  }

  /** The regular-expression form: drop every character of the class [$,]. */
  function StripCurrency(s: string): (r: string)
    ensures |r| <= |s|
    ensures forall i :: 0 <= i < |r| ==> !IsStripped(r[i])
  {
    if s == [] then []
    else (if IsStripped(s[0]) then [] else [s[0]]) + StripCurrency(s[1..])
  }

  /** SQL `REPLACE(s, c, '')` for a one-character pattern: drop every `c`. */
  function RemoveChar(s: string, c: char): (r: string)
    ensures |r| <= |s|
    ensures forall i :: 0 <= i < |r| ==> r[i] != c
  {
    if s == [] then []
    else (if s[0] == c then [] else [s[0]]) + RemoveChar(s[1..], c)
  }

  /** The SQL form: `REPLACE(REPLACE(s, '$', ''), ',', '')`. */
  function SqlStrip(s: string): string
  {
    RemoveChar(RemoveChar(s, '$'), ',')
  }

  /** The nested SQL REPLACE calls and the pandas regular expression compute the same text. */
  lemma {:induction false} SqlStripMatchesRegex(s: string)
    ensures SqlStrip(s) == StripCurrency(s)
  {
    if s != [] {
      SqlStripMatchesRegex(s[1..]);
      var inner := RemoveChar(s[1..], '$');
      if s[0] == '$' {
        assert RemoveChar(s, '$') == inner;
      } else {
        var once := [s[0]] + inner;
        assert RemoveChar(s, '$') == once;
        assert once[0] == s[0] && once[1..] == inner;
        assert RemoveChar(once, ',') == (if s[0] == ',' then [] else [s[0]]) + RemoveChar(inner, ',');
      }
    }
  }

  /** Stripping works character by character: it distributes over concatenation. */
  lemma {:induction false} StripConcat(a: string, b: string)
    ensures StripCurrency(a + b) == StripCurrency(a) + StripCurrency(b)
  {
    if a == [] {
      assert a + b == b;
    } else {
      assert (a + b)[0] == a[0] && (a + b)[1..] == a[1..] + b;
      StripConcat(a[1..], b);
      var head := if IsStripped(a[0]) then [] else [a[0]];
      assert StripCurrency(a + b) == head + StripCurrency(a[1..] + b);
      assert StripCurrency(a) == head + StripCurrency(a[1..]);
      assert head + (StripCurrency(a[1..]) + StripCurrency(b)) == (head + StripCurrency(a[1..])) + StripCurrency(b);
    }
  }

  /** Text without '$' and ',' is left unchanged. */
  lemma {:induction false} StripKeepsClean(s: string)
    requires forall i :: 0 <= i < |s| ==> !IsStripped(s[i])
    ensures StripCurrency(s) == s
  {
    if s != [] {
      StripKeepsClean(s[1..]);
    }
  }

  /** Stripping twice is stripping once. */
  lemma StripIdempotent(s: string)
    ensures StripCurrency(StripCurrency(s)) == StripCurrency(s)
  {
    StripKeepsClean(StripCurrency(s));
  }

  /**
   * Every '$' and ',' is gone and every other character is kept as often as
   * it occurs.
   */
  lemma {:induction false} StripCounts(s: string)
    ensures forall c :: multiset(StripCurrency(s))[c] == if IsStripped(c) then 0 else multiset(s)[c]
  {
    if s != [] {
      StripCounts(s[1..]);
      assert s == [s[0]] + s[1..];
      assert multiset(s) == multiset([s[0]]) + multiset(s[1..]);
    }
  }

  /** `t` is obtained from `s` by deleting characters, the rest kept in order. */
  predicate IsSubsequence(t: string, s: string)
  {
    if t == [] then true
    else if s == [] then false
    else if t[0] == s[0] then IsSubsequence(t[1..], s[1..])
    else IsSubsequence(t, s[1..])
  }

  /** The kept characters stay in their original order. */
  lemma {:induction false} StripSubsequence(s: string)
    ensures IsSubsequence(StripCurrency(s), s)
  {
    if s != [] {
      StripSubsequence(s[1..]);
      var rest := StripCurrency(s[1..]);
      if IsStripped(s[0]) {
        assert StripCurrency(s) == rest;
        DropFirst(rest, s);
      } else {
        assert ([s[0]] + rest)[1..] == rest;
      }
    }
  }

  /** A subsequence of the tail is a subsequence of the whole. */
  lemma {:induction false} DropFirst(t: string, s: string)
    requires s != [] && IsSubsequence(t, s[1..])
    ensures IsSubsequence(t, s)
  {
    if t != [] && t[0] == s[0] {
      SkipFirst(t, s[1..]);
    }
  }

  /** Dropping the first character of a subsequence keeps it a subsequence. */
  lemma {:induction false} SkipFirst(t: string, s: string)
    requires t != [] && IsSubsequence(t, s)
    ensures IsSubsequence(t[1..], s)
  {
    if s != [] && t[0] != s[0] {
      SkipFirst(t, s[1..]);
      DropFirst(t[1..], s);
    } else if s != [] {
      DropFirst(t[1..], s);
    }
  }

  /** The head of the amount: a dollar sign, one digit and a group separator. */
  lemma ThousandsHead()
    ensures "$1,234.50" == "$1," + "234.50"
    ensures StripCurrency("$1,") == "1"
    ensures "1" + "234.50" == "1234.50"
  {
  }

  /** A stored amount with both a dollar sign and a group separator. */
  lemma ThousandsExample()
    ensures StripCurrency("$1,234.50") == "1234.50"
  {
    ThousandsHead();
    StripConcat("$1,", "234.50");
    StripKeepsClean("234.50");
  }

  /** Two typical stored amounts. */
  lemma StripExamples()
    ensures StripCurrency("$1,234.50") == "1234.50"
    ensures StripCurrency("$0") == "0"
  {
    ThousandsExample();
    assert StripCurrency("$0") == [] + StripCurrency("0");
  }
}
