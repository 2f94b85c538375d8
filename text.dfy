/** Lines and comma-separated fields of XLCn frames. */
module Text {

  predicate IsTerm(c: char)
  {
    c == '\r' || c == '\n'
  }

  /** The line holds a CR or LF somewhere: every loop of the parser stops there. */
  ghost predicate Terminated(s: seq<char>)
  {
    exists i :: 0 <= i < |s| && IsTerm(s[i])
  }

  /** The index of the first CR or LF. */
  function TermIndex(s: seq<char>): (n: nat)
    requires Terminated(s)
    ensures n < |s| && IsTerm(s[n])
    ensures forall i :: 0 <= i < n ==> !IsTerm(s[i])
  {
    if IsTerm(s[0]) then 0
    else
      assert Terminated(s[1..]) by {
        var i :| 0 <= i < |s| && IsTerm(s[i]);
        assert s[1..][i - 1] == s[i];
      }
      1 + TermIndex(s[1..])
  }

  /** The part of a frame the parser looks at: everything before the first CR/LF. */
  function Line(s: seq<char>): (l: seq<char>)
    requires Terminated(s)
    ensures l <= s && |l| < |s| && IsTerm(s[|l|])
    ensures forall i :: 0 <= i < |l| ==> !IsTerm(l[i])
  {
    s[..TermIndex(s)]
  }

  /** Cutting a terminated frame after position `c` of its line leaves a
      terminated frame whose line is the rest of the original line. */
  lemma LineSuffix(s: seq<char>, c: nat)
    requires Terminated(s) && c <= |Line(s)|
    ensures Terminated(s[c..]) && Line(s[c..]) == Line(s)[c..]
  {
    var n := TermIndex(s);
    assert IsTerm(s[c..][n - c]);
    var m := TermIndex(s[c..]);
    assert s[c..][m] == s[c + m];
    assert m == n - c;
  }

  /** The index of the first occurrence of `x`. */
  function IndexOf(s: seq<char>, x: char): (i: nat)
    requires x in s
    ensures i < |s| && s[i] == x && x !in s[..i]
  {
    if s[0] == x then 0
    else
      assert s == [s[0]] + s[1..];
      1 + IndexOf(s[1..], x)
  }

  function Count(s: seq<char>, x: char): nat
  {
    if |s| == 0 then 0
    else Count(s[..|s| - 1], x) + (if s[|s| - 1] == x then 1 else 0)
  }

  /** The effect of one more character on a list of fields: a comma opens an
      empty field, anything else extends the last one. */
  function Step(fs: seq<seq<char>>, c: char): seq<seq<char>>
    requires |fs| >= 1
  {
    if c == ',' then fs + [[]] else fs[..|fs| - 1] + [fs[|fs| - 1] + [c]]
  }

  /** The comma-separated fields of `s`, empty ones included, in order. Defined
      from the right, one character at a time, as the parser's loop reads it. */
  function Split(s: seq<char>): (fs: seq<seq<char>>)
    ensures |fs| >= 1
    ensures forall t :: 0 <= t < |fs| ==> ',' !in fs[t]
  {
    if |s| == 0 then [[]]
    else Step(Split(s[..|s| - 1]), s[|s| - 1])
  }

  lemma SplitSnoc(p: seq<char>, c: char)
    ensures Split(p + [c]) == Step(Split(p), c)
  {
    assert (p + [c])[..|p|] == p;
  }

  /** One more character of a text, seen from its prefixes. */
  lemma SplitPrefixStep(l: seq<char>, i: nat)
    requires i < |l|
    ensures Split(l[..i + 1]) == Step(Split(l[..i]), l[i])
  {
    assert l[..i + 1] == l[..i] + [l[i]];
    SplitSnoc(l[..i], l[i]);
  }

  /** The inverse of Split: the fields with a comma between neighbours. */
  function Join(fs: seq<seq<char>>): seq<char>
    requires |fs| >= 1
  {
    if |fs| == 1 then fs[0]
    else Join(fs[..|fs| - 1]) + [','] + fs[|fs| - 1]
  }

  lemma JoinSnoc(fs: seq<seq<char>>, x: seq<char>)
    requires |fs| >= 1
    ensures Join(fs + [x]) == Join(fs) + [','] + x
  {
    assert (fs + [x])[..|fs|] == fs;
  }

  /** Joining the fields gives back the text they were split from. */
  lemma {:induction false} JoinSplit(s: seq<char>)
    ensures Join(Split(s)) == s
  {
    if |s| > 0 {
      var p, c := s[..|s| - 1], s[|s| - 1];
      assert s == p + [c];
      var fs := Split(p);
      SplitSnoc(p, c);
      JoinSplit(p);
      if c == ',' {
        JoinSnoc(fs, []);
      } else {
        var init, last := fs[..|fs| - 1], fs[|fs| - 1];
        assert fs == init + [last];
        if |fs| > 1 {
          JoinSnoc(init, last);
          JoinSnoc(init, last + [c]);
        }
      }
    }
  }

  /** Merging two boundary fields commutes with one more character on the right. */
  lemma StepMerge(ai: seq<seq<char>>, al: seq<char>, b: seq<seq<char>>, c: char)
    requires |b| >= 1
    ensures Step(ai + [al + b[0]] + b[1..], c) == ai + [al + Step(b, c)[0]] + Step(b, c)[1..]
  {
    var r := ai + [al + b[0]] + b[1..];
    var b2 := Step(b, c);
    if c == ',' {
      assert b2[0] == b[0];
      assert b2[1..] == b[1..] + [[]];
    } else if |b| == 1 {
      assert r[..|r| - 1] == ai;
      assert b2 == [b[0] + [c]];
      assert al + b[0] + [c] == al + b2[0];
    } else {
      var mid, lb := b[1..|b| - 1], b[|b| - 1];
      assert b[1..] == mid + [lb];
      assert r == ai + [al + b[0]] + mid + [lb];
      assert r[..|r| - 1] == ai + [al + b[0]] + mid;
      assert b2[0] == b[0];
      assert b2[1..] == mid + [lb + [c]];
    }
  }

  /** Split of a concatenation: the last field of the left part and the first
      field of the right part merge. */
  lemma {:induction false} SplitConcat(p: seq<char>, q: seq<char>)
    ensures var a, b := Split(p), Split(q);
      Split(p + q) == a[..|a| - 1] + [a[|a| - 1] + b[0]] + b[1..]
  {
    var a := Split(p);
    var ai, al := a[..|a| - 1], a[|a| - 1];
    if |q| == 0 {
      assert p + q == p;
      assert Split(q) == [[]];
      assert al + [] == al;
      assert a == ai + [al] + [];
    } else {
      var q', c := q[..|q| - 1], q[|q| - 1];
      assert q == q' + [c];
      assert p + q == (p + q') + [c];
      SplitConcat(p, q');
      SplitSnoc(p + q', c);
      SplitSnoc(q', c);
      StepMerge(ai, al, Split(q'), c);
    }
  }

  /** Text without a comma is a single field. */
  lemma {:induction false} SplitNoComma(s: seq<char>)
    requires ',' !in s
    ensures Split(s) == [s]
  {
    if |s| > 0 {
      assert ',' !in s[..|s| - 1];
      SplitNoComma(s[..|s| - 1]);
      assert s == s[..|s| - 1] + [s[|s| - 1]];
    }
  }

  /** Splitting the joined fields gives back the fields, provided none holds a comma. */
  lemma {:induction false} SplitJoin(fs: seq<seq<char>>)
    requires |fs| >= 1 && forall t :: 0 <= t < |fs| ==> ',' !in fs[t]
    ensures Split(Join(fs)) == fs
  {
    var last := fs[|fs| - 1];
    SplitNoComma(last);
    if |fs| > 1 {
      var init := fs[..|fs| - 1];
      SplitJoin(init);
      var p := Join(init) + [','];
      SplitSnoc(Join(init), ',');
      assert Split(p) == init + [[]];
      SplitConcat(p, last);
      assert Join(fs) == p + last;
      assert (init + [[]])[..|init|] == init;
      assert (init + [[]])[|init|] + last == last;
      assert Split(last)[1..] == [];
      assert fs == init + [last];
      assert Split(p + last) == init + [last] + [];
    }
  }

  /** One field more than there are commas. */
  lemma {:induction false} SplitCount(s: seq<char>)
    ensures |Split(s)| == Count(s, ',') + 1
  {
    if |s| > 0 {
      SplitCount(s[..|s| - 1]);
    }
  }

  /** The first field of a non-empty text: empty when it starts with a comma
      (and another field follows), otherwise at least one character. */
  lemma {:induction false} SplitFirst(q: seq<char>)
    requires |q| > 0
    ensures var b := Split(q);
      if q[0] == ',' then b[0] == [] && |b| >= 2 else |b[0]| >= 1
  {
    var q', c := q[..|q| - 1], q[|q| - 1];
    assert q == q' + [c];
    SplitSnoc(q', c);
    if |q'| == 0 {
      assert Split(q') == [[]];
      StepFirst([[]], c);
    } else {
      assert q'[0] == q[0];
      SplitFirst(q');
      StepFirst(Split(q'), c);
    }
  }

  lemma StepFirst(fs: seq<seq<char>>, c: char)
    requires |fs| >= 1
    ensures |Step(fs, c)| >= |fs| && fs[0] <= Step(fs, c)[0]
    ensures |fs| >= 2 ==> Step(fs, c)[0] == fs[0]
    ensures c == ',' ==> Step(fs, c)[0] == fs[0] && |Step(fs, c)| >= 2
    ensures c != ',' ==> |Step(fs, c)[|fs| - 1]| >= 1
  {
  }

  /** The field containing position |p| of p + q, seen from the split of p:
      the earlier fields are final, the current one can only grow, and the
      character at |p| either closes it or lengthens it. */
  lemma SplitHead(p: seq<char>, q: seq<char>)
    requires |q| > 0
    ensures var a, b := Split(p), Split(p + q);
      && |b| >= |a| && a[..|a| - 1] == b[..|a| - 1] && a[|a| - 1] <= b[|a| - 1]
      && if q[0] == ',' then |b| > |a| && b[|a| - 1] == a[|a| - 1]
         else |b[|a| - 1]| > |a[|a| - 1]|
  {
    SplitConcat(p, q);
    SplitFirst(q);
    HeadAlgebra(Split(p), Split(q), q[0] == ',');
  }

  lemma HeadAlgebra(a: seq<seq<char>>, b: seq<seq<char>>, comma: bool)
    requires |a| >= 1 && |b| >= 1
    requires if comma then b[0] == [] && |b| >= 2 else |b[0]| >= 1
    ensures var ab := a[..|a| - 1] + [a[|a| - 1] + b[0]] + b[1..];
      && |ab| >= |a| && a[..|a| - 1] == ab[..|a| - 1] && a[|a| - 1] <= ab[|a| - 1]
      && if comma then |ab| > |a| && ab[|a| - 1] == a[|a| - 1]
         else |ab[|a| - 1]| > |a[|a| - 1]|
  {
    if comma {
      assert a[|a| - 1] + b[0] == a[|a| - 1];
    }
  }
}
