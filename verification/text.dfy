/** Text building blocks shared by the statement builders: `str.join`,
    `str.split`, the `name: repr` property-bag syntax, substring occurrence and
    parenthesis balance. */
module Text {

  /** `sep.join(xs)`. */
  function Join(sep: string, xs: seq<string>): string
    decreases |xs|
  {
    if |xs| == 0 then "" else if |xs| == 1 then xs[0] else xs[0] + sep + Join(sep, xs[1..])
  }

  /** `s.split(c)` for a one-character separator: the pieces between
      consecutive separators, always at least one. */
  function Split(s: string, c: char): (r: seq<string>)
    ensures |r| >= 1
    decreases |s|
  {
    if |s| == 0 then [""]
    else
      var rest := Split(s[1..], c);
      if s[0] == c then [""] + rest else [[s[0]] + rest[0]] + rest[1..]
  }

  /** Joining then appending one more piece adds one separator. */
  lemma {:induction false} JoinAppend(sep: string, xs: seq<string>, x: string)
    requires |xs| >= 1
    ensures Join(sep, xs + [x]) == Join(sep, xs) + sep + x
    decreases |xs|
  {
    if |xs| == 1 {
      assert (xs + [x])[1..] == [x];
    } else {
      assert (xs + [x])[1..] == xs[1..] + [x];
      JoinAppend(sep, xs[1..], x);
    }
  }

  lemma {:induction false} SplitWithout(s: string, c: char)
    requires c !in s
    ensures Split(s, c) == [s]
    decreases |s|
  {
    if |s| > 0 {
      SplitWithout(s[1..], c);
      assert [s[0]] + s[1..] == s;
    }
  }

  lemma {:induction false} SplitAt(a: string, c: char, b: string)
    requires c !in a
    ensures Split(a + [c] + b, c) == [a] + Split(b, c)
    decreases |a|
  {
    if |a| == 0 {
      assert a + [c] + b == [c] + b;
      assert ([c] + b)[1..] == b;
    } else {
      var s := a + [c] + b;
      assert s[1..] == a[1..] + [c] + b;
      SplitAt(a[1..], c, b);
      assert [a[0]] + a[1..] == a;
    }
  }

  /** Putting pieces one by one in front of a list of pieces, kept apart from
      `Split` so that proofs about it need no sequence extensionality. */
  lemma ConsPieces(a: string, b: string, c: string, d: string, rest: seq<string>)
    ensures [c] + ([d] + rest) == [c, d] + rest
    ensures [b] + ([c, d] + rest) == [b, c, d] + rest
    ensures [a] + ([b, c, d] + rest) == [a, b, c, d] + rest
  {
  }

  /** Four separator-free pieces, each followed by the separator, split off
      the front one by one. */
  lemma SplitFour(a: string, b: string, c: string, d: string, tail: string, q: char)
    requires q !in a && q !in b && q !in c && q !in d
    ensures Split(a + [q] + (b + [q] + (c + [q] + (d + [q] + tail))), q) == [a, b, c, d] + Split(tail, q)
  {
    var r3 := d + [q] + tail;
    var r2 := c + [q] + r3;
    var r1 := b + [q] + r2;
    ConsPieces(a, b, c, d, Split(tail, q));
    SplitAt(d, q, tail);
    SplitAt(c, q, r3);
    SplitAt(b, q, r2);
    SplitAt(a, q, r1);
  }

  /** Splitting a join on a separator none of the pieces contains gives the
      pieces back. */
  lemma {:induction false} SplitJoin(xs: seq<string>, c: char)
    requires |xs| >= 1
    requires forall i :: 0 <= i < |xs| ==> c !in xs[i]
    ensures Split(Join([c], xs), c) == xs
    decreases |xs|
  {
    if |xs| == 1 {
      SplitWithout(xs[0], c);
    } else {
      SplitAt(xs[0], c, Join([c], xs[1..]));
      SplitJoin(xs[1..], c);
    }
  }

  // ---------------------------------------------------------------------------
  // Property bags: `",".join(f"{name}: {value!r}" for ...)`

  /** One `name: repr` entry. */
  function Entry(name: string, reprText: string): string {
    name + ": " + reprText
  }

  function Entries(pairs: seq<(string, string)>): (r: seq<string>)
    ensures |r| == |pairs|
    ensures forall i :: 0 <= i < |pairs| ==> r[i] == Entry(pairs[i].0, pairs[i].1)
  {
    seq(|pairs|, i requires 0 <= i < |pairs| => Entry(pairs[i].0, pairs[i].1))
  }

  /** The text of a property bag: its `name: repr` entries joined by commas,
      in order. */
  function PropertyBag(pairs: seq<(string, string)>): string {
    Join(",", Entries(pairs))
  }

  /** Appending one pair to a non-empty bag appends `,name: repr`. */
  lemma PropertyBagAppend(pairs: seq<(string, string)>, name: string, reprText: string)
    requires |pairs| >= 1
    ensures PropertyBag(pairs + [(name, reprText)]) == PropertyBag(pairs) + "," + Entry(name, reprText)
  {
    assert Entries(pairs + [(name, reprText)]) == Entries(pairs) + [Entry(name, reprText)];
    JoinAppend(",", Entries(pairs), Entry(name, reprText));
  }

  /** When no name or value text contains a comma, the bag splits back into
      exactly one entry per pair, in order. */
  lemma PropertyBagSplits(pairs: seq<(string, string)>)
    requires |pairs| >= 1
    requires forall i :: 0 <= i < |pairs| ==> ',' !in pairs[i].0 && ',' !in pairs[i].1
    ensures Split(PropertyBag(pairs), ',') == Entries(pairs)
  {
    var es := Entries(pairs);
    forall i | 0 <= i < |es|
      ensures ',' !in es[i]
    {
      assert es[i] == pairs[i].0 + ": " + pairs[i].1;
    }
    SplitJoin(es, ',');
  }

  // ---------------------------------------------------------------------------
  // Substrings

  /** `t` occurs in `s` starting at index `k`. */
  predicate OccursAt(s: string, t: string, k: int) {
    0 <= k && k + |t| <= |s| && s[k..k + |t|] == t
  }

  /** `t in s` for strings. */
  ghost predicate Contains(s: string, t: string) {
    exists k :: OccursAt(s, t, k)
  }

  lemma ContainsSelf(t: string)
    ensures Contains(t, t)
  {
    assert t[0..|t|] == t;
    assert OccursAt(t, t, 0);
  }

  lemma ContainsLeft(a: string, b: string, t: string)
    requires Contains(a, t)
    ensures Contains(a + b, t)
  {
    var k :| OccursAt(a, t, k);
    assert (a + b)[k..k + |t|] == a[k..k + |t|];
    assert OccursAt(a + b, t, k);
  }

  lemma ContainsRight(a: string, b: string, t: string)
    requires Contains(b, t)
    ensures Contains(a + b, t)
  {
    var k :| OccursAt(b, t, k);
    assert (a + b)[|a| + k..|a| + k + |t|] == b[k..k + |t|];
    assert OccursAt(a + b, t, |a| + k);
  }

  // ---------------------------------------------------------------------------
  // Parenthesis balance

  function Delta(c: char): int {
    if c == '(' then 1 else if c == ')' then -1 else 0
  }

  /** Number of `(` minus number of `)`. */
  function Net(s: string): int
    decreases |s|
  {
    if |s| == 0 then 0 else Net(s[..|s| - 1]) + Delta(s[|s| - 1])
  }

  /** Nesting depth after the first `i` characters. */
  function Depth(s: string, i: int): int
    requires 0 <= i <= |s|
  {
    Net(s[..i])
  }

  /** Every `)` closes an earlier `(` and every `(` is closed. */
  predicate Balanced(s: string) {
    Net(s) == 0 && forall i :: 0 <= i <= |s| ==> Depth(s, i) >= 0
  }

  /** The `(` at index `open` is closed by the `)` at index `close`: the depth
      returns to its level before the pair only after `close`. */
  predicate ClosesAt(s: string, open: nat, close: nat) {
    && open < close < |s|
    && s[open] == '(' && s[close] == ')'
    && Depth(s, close + 1) == Depth(s, open)
    && forall i :: open < i <= close ==> Depth(s, i) > Depth(s, open)
  }

  lemma {:induction false} NetConcat(a: string, b: string)
    ensures Net(a + b) == Net(a) + Net(b)
    decreases |b|
  {
    if |b| == 0 {
      assert a + b == a;
    } else {
      var b' := b[..|b| - 1];
      assert (a + b)[..|a + b| - 1] == a + b';
      NetConcat(a, b');
    }
  }

  lemma DepthWhole(s: string)
    ensures Depth(s, |s|) == Net(s)
  {
    assert s[..|s|] == s;
  }

  lemma DepthLeft(a: string, b: string, i: int)
    requires 0 <= i <= |a|
    ensures Depth(a + b, i) == Depth(a, i)
  {
    assert (a + b)[..i] == a[..i];
  }

  lemma DepthRight(a: string, b: string, i: int)
    requires 0 <= i <= |b|
    ensures Depth(a + b, |a| + i) == Net(a) + Depth(b, i)
  {
    var head := b[..i];
    var whole := a + b;
    assert |whole[..|a| + i]| == |a + head|;
    forall k | 0 <= k < |a| + i
      ensures whole[..|a| + i][k] == (a + head)[k]
    {
      if k >= |a| {
        assert whole[k] == b[k - |a|];
      }
    }
    assert whole[..|a| + i] == a + head;
    NetConcat(a, head);
  }

  lemma NetNoParens(s: string)
    requires '(' !in s && ')' !in s
    ensures Net(s) == 0
    decreases |s|
  {
    if |s| > 0 {
      assert s[|s| - 1] in s;
      var s' := s[..|s| - 1];
      assert forall c :: c in s' ==> c in s;
      NetNoParens(s');
    }
  }

  /** Text without parentheses is balanced. */
  lemma BalancedNoParens(s: string)
    requires '(' !in s && ')' !in s
    ensures Balanced(s)
  {
    NetNoParens(s);
    forall i | 0 <= i <= |s|
      ensures Depth(s, i) >= 0
    {
      assert forall c :: c in s[..i] ==> c in s;
      NetNoParens(s[..i]);
    }
  }

  lemma BalancedConcat(a: string, b: string)
    requires Balanced(a) && Balanced(b)
    ensures Balanced(a + b)
  {
    NetConcat(a, b);
    forall i | 0 <= i <= |a + b|
      ensures Depth(a + b, i) >= 0
    {
      if i <= |a| {
        DepthLeft(a, b, i);
      } else {
        DepthRight(a, b, i - |a|);
      }
    }
  }

  /** `"(" + s + ")"`. */
  function Parens(s: string): string {
    "(" + s + ")"
  }

  /** Enclosing balanced text keeps it balanced, and the opening parenthesis is
      closed by the last character, not earlier. */
  lemma ParensBalanced(s: string)
    requires Balanced(s)
    ensures Balanced(Parens(s))
    ensures ClosesAt(Parens(s), 0, |s| + 1)
  {
    var open := "(" + s;
    var p := Parens(s);
    assert p == open + ")";
    assert Net("(") == 1 by { assert "("[..0] == ""; }
    assert Net(")") == -1 by { assert ")"[..0] == ""; }
    NetConcat("(", s);
    NetConcat(open, ")");
    forall i | 1 <= i <= |s| + 1
      ensures Depth(p, i) == 1 + Depth(s, i - 1)
    {
      DepthLeft(open, ")", i);
      DepthRight("(", s, i - 1);
    }
    DepthWhole(p);
    assert Depth(p, 0) == 0 by { assert p[..0] == ""; }
    assert Depth(p, |s| + 2) == 0;
    forall i | 0 <= i <= |p|
      ensures Depth(p, i) >= 0
    {
      if 1 <= i <= |s| + 1 {
        assert Depth(p, i) == 1 + Depth(s, i - 1);
      }
    }
  }

  /** A parenthesised prefix stays closed where it was when text follows it. */
  lemma ClosesAtPrefix(s: string, t: string, open: nat, close: nat, whole: string)
    requires ClosesAt(s, open, close)
    requires whole == s + t
    ensures ClosesAt(whole, open, close)
  {
    DepthLeft(s, t, close + 1);
    DepthLeft(s, t, open);
    forall i | open < i <= close
      ensures Depth(s + t, i) > Depth(s + t, open)
    {
      DepthLeft(s, t, i);
    }
  }

  /** A parenthesised suffix stays closed, shifted by the length of the text
      that precedes it. */
  lemma ClosesAtSuffix(t: string, s: string, open: nat, close: nat, whole: string, open': nat, close': nat)
    requires ClosesAt(s, open, close)
    requires whole == t + s && open' == |t| + open && close' == |t| + close
    ensures ClosesAt(whole, open', close')
  {
    DepthRight(t, s, close + 1);
    DepthRight(t, s, open);
    forall i | open' < i <= close'
      ensures Depth(whole, i) > Depth(whole, open')
    {
      DepthRight(t, s, i - |t|);
    }
  }
}
