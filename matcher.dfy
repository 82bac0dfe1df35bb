/** The input matcher of `#focusInputLetters` in `src/game.ts`: the typed word
    is a working list of characters; walking the letters oldest first, each
    active letter claims the first remaining copy of its character, which is
    spliced out of the working list. */
module Matcher {
  import opened Pool

  /** `inputLetters.splice(i, 1)` at the first i that holds c; a list without
      c is left alone. */
  function RemoveFirst(s: seq<char>, c: char): (r: seq<char>)
    ensures c !in s ==> r == s
    ensures c in s ==> |r| == |s| - 1
  {
    if s == [] then []
    else if s[0] == c then s[1..]
    else [s[0]] + RemoveFirst(s[1..], c)
  }

  /** Removing the first c takes exactly one copy of c out of a list that
      holds one, and leaves every other character's count alone. */
  lemma {:induction false} RemoveFirstCount(s: seq<char>, c: char)
    requires c in s
    ensures multiset(RemoveFirst(s, c)) == multiset(s) - multiset{c}
  {
    assert s == [s[0]] + s[1..];
    if s[0] != c {
      RemoveFirstCount(s[1..], c);
    }
  }

  /** The inner loop's splice at the first index holding c is `RemoveFirst`. */
  lemma {:induction false} RemoveFirstAt(s: seq<char>, c: char, j: nat)
    requires j < |s| && s[j] == c
    requires forall k :: 0 <= k < j ==> s[k] != c
    ensures RemoveFirst(s, c) == s[..j] + s[j + 1..]
  {
    if j > 0 {
      RemoveFirstAt(s[1..], c, j - 1);
      assert s[1..][..j - 1] == s[1..j];
      assert s[1..][j..] == s[j + 1..];
      assert [s[0]] + s[1..j] == s[..j];
    }
  }

  /** The characters of a list of letters. */
  function Chars(ls: seq<Letter>): seq<char>
  {
    if ls == [] then [] else [ls[0].ch] + Chars(ls[1..])
  }

  /** What is left of the working list after letter l has had its turn: an
      active letter whose character is still there takes one copy of it. */
  function Remaining(l: Letter, typed: seq<char>): (r: seq<char>)
    ensures |r| == |typed| - (if l.active && l.ch in typed then 1 else 0)
    ensures !(l.active && l.ch in typed) ==> r == typed
  {
    if l.active && l.ch in typed then RemoveFirst(typed, l.ch) else typed
  }

  /** A letter's turn uses at most one copy of its own character, and only
      when it is active and a copy is left. */
  lemma RemainingCount(l: Letter, typed: seq<char>)
    ensures forall c :: (multiset(Remaining(l, typed))[c] ==
                         multiset(typed)[c] - (if l.active && l.ch == c && multiset(typed)[c] > 0 then 1 else 0))
  {
    if l.active && l.ch in typed {
      RemoveFirstCount(typed, l.ch);
    }
  }

  /** The letters that `#focusInputLetters` focuses, oldest first: letters of
      the list, all active. */
  function Match(ls: seq<Letter>, typed: seq<char>): (m: seq<Letter>)
    ensures forall l :: l in m ==> l in ls && l.active
    decreases |ls|
  {
    if ls == [] then []
    else
      var l := ls[0];
      assert ls == [l] + ls[1..];
      var rest := Match(ls[1..], Remaining(l, typed));
      if l.active && l.ch in typed then
        assert ([l] + rest)[1..] == rest;
        [l] + rest
      else
        rest
  }

  /** The matched letters use each typed character at most once: for every
      character c, no more matched letters carry c than the typed word holds
      copies of c. */
  lemma {:induction false} MatchWithinWord(ls: seq<Letter>, typed: seq<char>)
    ensures multiset(Chars(Match(ls, typed))) <= multiset(typed)
  {
    if ls != [] {
      var l := ls[0];
      var rem := Remaining(l, typed);
      var rest := Match(ls[1..], rem);
      MatchWithinWord(ls[1..], rem);
      RemainingCount(l, typed);
      if l.active && l.ch in typed {
        assert Match(ls, typed) == [l] + rest;
        assert ([l] + rest)[1..] == rest;
        assert multiset(Chars([l] + rest)) == multiset{l.ch} + multiset(Chars(rest));
      } else {
        assert rem == typed;
      }
    }
  }

  /** One turn of the walk: the letter at position i is matched or not, and
      the rest of the list is matched against what it leaves of the word. */
  lemma MatchStep(ls: seq<Letter>, i: nat, typed: seq<char>)
    requires i < |ls|
    ensures Match(ls[i..], typed) ==
      (if ls[i].active && ls[i].ch in typed then [ls[i]] else []) + Match(ls[i + 1..], Remaining(ls[i], typed))
  {
    assert ls[i..][1..] == ls[i + 1..];
  }

  /** The walk's invariant carried over one turn: what has been matched so
      far, followed by the matches of the rest, is the whole match. */
  lemma MatchWalk(ls: seq<Letter>, i: nat, typed: seq<char>, matched: seq<Letter>, whole: seq<Letter>)
    requires i < |ls| && matched + Match(ls[i..], typed) == whole
    ensures (matched + if ls[i].active && ls[i].ch in typed then [ls[i]] else [])
      + Match(ls[i + 1..], Remaining(ls[i], typed)) == whole
  {
    MatchStep(ls, i, typed);
    var head := if ls[i].active && ls[i].ch in typed then [ls[i]] else [];
    assert (matched + head) + Match(ls[i + 1..], Remaining(ls[i], typed))
        == matched + (head + Match(ls[i + 1..], Remaining(ls[i], typed)));
  }

  /** The focused set: the ids of the matched letters, all of them active. */
  function Focus(ls: seq<Letter>, typed: seq<char>): (f: set<nat>)
    ensures f <= ActiveIds(ls)
  {
    Ids(Match(ls, typed))
  }

  /** The number of active letters of the list with character c. */
  function ActiveWith(ls: seq<Letter>, c: char): nat
  {
    if ls == [] then 0
    else (if ls[0].active && ls[0].ch == c then 1 else 0) + ActiveWith(ls[1..], c)
  }

  /** The oldest letter is never matched again further down the list. */
  lemma HeadNotInRest(ls: seq<Letter>, typed: seq<char>)
    requires IdsIncreasing(ls) && ls != []
    ensures ls[0] !in Match(ls[1..], typed)
  {
    forall l | l in Match(ls[1..], typed) ensures l != ls[0] {
      var k :| 0 <= k < |ls| - 1 && ls[1..][k] == l;
      assert ls[0].id < ls[k + 1].id;
    }
  }

  /** Counting the active letters before position i counts the head, then the
      active letters of the tail before position i - 1. */
  lemma ActiveWithPrefix(ls: seq<Letter>, i: nat, c: char)
    requires 0 < i <= |ls|
    ensures ActiveWith(ls[..i], c) ==
      (if ls[0].active && ls[0].ch == c then 1 else 0) + ActiveWith(ls[1..][..i - 1], c)
  {
    assert ls[..i][1..] == ls[1..][..i - 1];
  }

  /** Matching is greedy, oldest letter first: the letter at position i is
      matched exactly when it is active and fewer active letters with its
      character come before it than the typed word holds copies of that
      character. */
  lemma {:induction false} MatchGreedy(ls: seq<Letter>, typed: seq<char>, i: nat)
    requires IdsIncreasing(ls) && i < |ls|
    ensures ls[i] in Match(ls, typed) <==>
      ls[i].active && ActiveWith(ls[..i], ls[i].ch) < multiset(typed)[ls[i].ch]
  {
    var l, tail := ls[0], ls[1..];
    var rem := Remaining(l, typed);
    RemainingCount(l, typed);
    HeadNotInRest(ls, rem);
    if i == 0 {
      assert ls[..0] == [];
    } else {
      assert IdsIncreasing(tail);
      assert ls[i] != l by {
        assert ls[0].id < ls[i].id;
      }
      assert ls[i] in Match(ls, typed) <==> ls[i] in Match(tail, rem);
      MatchGreedy(tail, rem, i - 1);
      assert tail[i - 1] == ls[i];
      ActiveWithPrefix(ls, i, ls[i].ch);
    }
  }

  /** The greedy rule for the focused ids. */
  lemma FocusGreedy(ls: seq<Letter>, typed: seq<char>, i: nat)
    requires IdsIncreasing(ls) && i < |ls|
    ensures ls[i].id in Focus(ls, typed) <==>
      ls[i].active && ActiveWith(ls[..i], ls[i].ch) < multiset(typed)[ls[i].ch]
  {
    MatchGreedy(ls, typed, i);
    var m := Match(ls, typed);
    if ls[i].id in Ids(m) {
      var l :| l in m && l.id == ls[i].id;
      var k :| 0 <= k < |ls| && ls[k] == l;
      if k < i {
        assert ls[k].id < ls[i].id;
      } else if k > i {
        assert ls[i].id < ls[k].id;
      }
    }
  }
}
