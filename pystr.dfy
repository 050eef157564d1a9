/** The few Python string operations the formatter relies on, as functions on
    `seq<char>`: `s.split('\n')`, `'\n'.join(...)`, `s.replace('\n', '')`,
    the substring test `sub in s`, and the longest line of a text. */
module PyStr {

  function Max(a: nat, b: nat): nat { if a < b then b else a }

  /** `s.split('\n')`: the pieces of `s` between newline characters. Like
      Python, the empty string gives one empty piece and a trailing newline
      gives a trailing empty piece. */
  function Lines(s: string): (r: seq<string>)
    ensures |r| >= 1
  {
    if s == [] then [[]]
    else
      var rest := Lines(s[1..]);
      if s[0] == '\n' then [[]] + rest
      else [[s[0]] + rest[0]] + rest[1..]
  }

  /** `'\n'.join(ls)` for a non-empty list of pieces. */
  function Join(ls: seq<string>): string
    requires |ls| >= 1
  {
    if |ls| == 1 then ls[0] else ls[0] + "\n" + Join(ls[1..])
  }

  /** The concatenation of all pieces, with nothing between them. */
  function Concat(ls: seq<string>): string
  {
    if ls == [] then [] else ls[0] + Concat(ls[1..])
  }

  /** No piece produced by `split('\n')` contains a newline. */
  lemma {:induction false} LinesHaveNoNewline(s: string)
    ensures forall i :: 0 <= i < |Lines(s)| ==> '\n' !in Lines(s)[i]
  {
    if s != [] {
      LinesHaveNoNewline(s[1..]);
    }
  }

  /** Joining the pieces of a split gives the text back. */
  lemma {:induction false} JoinLines(s: string)
    ensures Join(Lines(s)) == s
  {
    if s != [] {
      var rest := Lines(s[1..]);
      JoinLines(s[1..]);
      if s[0] == '\n' {
        assert ([[]] + rest)[1..] == rest;
      } else if |rest| == 1 {
        assert s == [s[0]] + s[1..];
      } else {
        var ls := [[s[0]] + rest[0]] + rest[1..];
        assert ls[1..] == rest[1..];
        calc {
          Join(ls);
          ([s[0]] + rest[0]) + "\n" + Join(rest[1..]);
          [s[0]] + (rest[0] + "\n" + Join(rest[1..]));
          [s[0]] + Join(rest);
          s;
        }
      }
    }
  }

  /** Splitting text that starts with a newline-free piece `a` glues `a`
      onto the first piece of the rest. */
  lemma {:induction false} LinesOfPrefix(a: string, t: string)
    requires '\n' !in a
    ensures Lines(a + t) == [a + Lines(t)[0]] + Lines(t)[1..]
  {
    if a != [] {
      LinesOfPrefix(a[1..], t);
      assert (a + t)[1..] == a[1..] + t;
      assert (a + t)[0] == a[0];
      assert [a[0]] + (a[1..] + Lines(t)[0]) == a + Lines(t)[0];
    } else {
      assert a + t == t;
      assert a + Lines(t)[0] == Lines(t)[0];
      assert Lines(t) == [Lines(t)[0]] + Lines(t)[1..];
    }
  }

  /** Splitting a join of newline-free pieces gives the pieces back: with
      JoinLines, `split('\n')` and `'\n'.join` are inverse to each other. */
  lemma {:induction false} LinesOfJoin(ls: seq<string>)
    requires |ls| >= 1
    requires forall i :: 0 <= i < |ls| ==> '\n' !in ls[i]
    ensures Lines(Join(ls)) == ls
  {
    if |ls| == 1 {
      LinesOfPrefix(ls[0], []);
      assert ls[0] + [] == ls[0];
    } else {
      LinesOfJoin(ls[1..]);
      var tail := "\n" + Join(ls[1..]);
      assert tail[0] == '\n' && tail[1..] == Join(ls[1..]);
      assert Lines(tail) == [[]] + ls[1..];
      LinesOfPrefix(ls[0], tail);
      assert ls[0] + tail == Join(ls);
      assert ls[0] + [] == ls[0];
      assert ls == [ls[0]] + ls[1..];
    }
  }

  /** `s.replace('\n', '')`. */
  function RemoveNewlines(s: string): (r: string)
    ensures '\n' !in r
    ensures |r| <= |s|
  {
    if s == [] then []
    else (if s[0] == '\n' then [] else [s[0]]) + RemoveNewlines(s[1..])
  }

  /** Removing the newlines leaves exactly the pieces of the split, run
      together. */
  lemma {:induction false} RemoveNewlinesIsConcatOfLines(s: string)
    ensures RemoveNewlines(s) == Concat(Lines(s))
  {
    if s != [] {
      var rest := Lines(s[1..]);
      RemoveNewlinesIsConcatOfLines(s[1..]);
      if s[0] == '\n' {
        assert ([[]] + rest)[1..] == rest;
      } else {
        var ls := [[s[0]] + rest[0]] + rest[1..];
        assert ls[1..] == rest[1..];
        assert Concat(rest) == rest[0] + Concat(rest[1..]);
        assert Concat(ls) == [s[0]] + rest[0] + Concat(rest[1..]);
      }
    }
  }

  /** Removing newlines distributes over concatenation. */
  lemma {:induction false} RemoveNewlinesAppend(a: string, b: string)
    ensures RemoveNewlines(a + b) == RemoveNewlines(a) + RemoveNewlines(b)
  {
    if a != [] {
      RemoveNewlinesAppend(a[1..], b);
      assert (a + b)[1..] == a[1..] + b;
      assert (a + b)[0] == a[0];
    } else {
      assert a + b == b;
    }
  }

  /** Text without newlines is left as it is. */
  lemma {:induction false} RemoveNewlinesKeeps(s: string)
    requires '\n' !in s
    ensures RemoveNewlines(s) == s
  {
    if s != [] {
      RemoveNewlinesKeeps(s[1..]);
      assert s == [s[0]] + s[1..];
    }
  }

  predicate StartsWith(s: string, prefix: string)
  {
    |prefix| <= |s| && s[..|prefix|] == prefix
  }

  /** `sub` occurs in `s` starting at index `i`. */
  predicate OccursAt(s: string, sub: string, i: int)
  {
    0 <= i && i + |sub| <= |s| && s[i..i + |sub|] == sub
  }

  /** Python's `sub in s` on strings, scanning from the left. */
  predicate Contains(s: string, sub: string)
    decreases |s|
  {
    StartsWith(s, sub) || (s != [] && Contains(s[1..], sub))
  }

  /** An occurrence past the first character is an occurrence in the tail. */
  lemma OccursInTail(s: string, sub: string, i: int)
    requires s != [] && i >= 1
    ensures OccursAt(s, sub, i) <==> OccursAt(s[1..], sub, i - 1)
  {
    if i + |sub| <= |s| {
      assert s[1..][i - 1..i - 1 + |sub|] == s[i..i + |sub|];
    }
  }

  /** `sub in s` holds exactly when `sub` occurs at some index of `s`. */
  lemma {:induction false} ContainsIffOccurs(s: string, sub: string)
    ensures Contains(s, sub) <==> exists i :: OccursAt(s, sub, i)
  {
    if s == [] {
      if StartsWith(s, sub) {
        assert OccursAt(s, sub, 0);
      }
      if exists i :: OccursAt(s, sub, i) {
        var i :| OccursAt(s, sub, i);
        assert i == 0 && |sub| == 0;
        assert StartsWith(s, sub);
      }
    } else {
      ContainsIffOccurs(s[1..], sub);
      if Contains(s, sub) {
        if StartsWith(s, sub) {
          assert OccursAt(s, sub, 0);
        } else {
          var i :| OccursAt(s[1..], sub, i);
          OccursInTail(s, sub, i + 1);
        }
      }
      if exists i :: OccursAt(s, sub, i) {
        var i :| OccursAt(s, sub, i);
        if i > 0 {
          OccursInTail(s, sub, i);
        }
      }
    }
  }

  /** A newline-free `sub` is still found once the newlines around it are
      removed. */
  lemma FoundAfterRemovingNewlines(before: string, sub: string, after: string)
    requires '\n' !in sub
    ensures Contains(RemoveNewlines(before + sub + after), sub)
  {
    RemoveNewlinesAppend(before + sub, after);
    RemoveNewlinesAppend(before, sub);
    RemoveNewlinesKeeps(sub);
    var t := RemoveNewlines(before + sub + after);
    var i := |RemoveNewlines(before)|;
    assert t == RemoveNewlines(before) + sub + RemoveNewlines(after);
    assert t[i..i + |sub|] == sub;
    assert OccursAt(t, sub, i);
    ContainsIffOccurs(t, sub);
  }

  /** The length of the longest string in `ls` (0 for no strings), found
      scanning from the left. */
  function MaxLength(ls: seq<string>): (m: nat)
    ensures forall i :: 0 <= i < |ls| ==> |ls[i]| <= m
    ensures ls == [] ==> m == 0
  {
    if ls == [] then 0 else Max(MaxLength(ls[..|ls| - 1]), |ls[|ls| - 1]|)
  }

  /** The maximum is the length of one of the strings. */
  lemma {:induction false} MaxLengthAttained(ls: seq<string>)
    requires ls != []
    ensures exists i :: 0 <= i < |ls| && |ls[i]| == MaxLength(ls)
  {
    var front := ls[..|ls| - 1];
    if front != [] && MaxLength(front) >= |ls[|ls| - 1]| {
      MaxLengthAttained(front);
      var i :| 0 <= i < |front| && |front[i]| == MaxLength(front);
      assert ls[i] == front[i];
    } else {
      assert |ls[|ls| - 1]| == MaxLength(ls);
    }
  }

  /** The length of the longest line of `s` once it is split on newlines. */
  function LongestLine(s: string): nat
  {
    MaxLength(Lines(s))
  }

  /** Each piece, plus one newline for each other piece, fits in the join. */
  lemma {:induction false} PieceFitsInJoin(ls: seq<string>, i: nat)
    requires |ls| >= 1 && i < |ls|
    ensures |ls[i]| + |ls| - 1 <= |Join(ls)|
  {
    if |ls| > 1 {
      if i == 0 {
        PieceFitsInJoin(ls[1..], 0);
      } else {
        PieceFitsInJoin(ls[1..], i - 1);
      }
    }
  }

  /** No line is longer than its text, and the longest line is the whole
      text exactly when the text holds no newline. */
  lemma LongestLineBound(s: string)
    ensures LongestLine(s) <= |s|
    ensures LongestLine(s) == |s| <==> '\n' !in s
  {
    var ls := Lines(s);
    MaxLengthAttained(ls);
    JoinLines(s);
    LinesHaveNoNewline(s);
    forall i | 0 <= i < |ls| ensures |ls[i]| + |ls| - 1 <= |s| {
      PieceFitsInJoin(ls, i);
    }
    if '\n' !in s {
      LinesOfJoin([s]);
      assert ls == [s];
    }
  }
}
