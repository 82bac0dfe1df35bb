/** The letter pool of `src/game.ts`, as values: the field constants, the
    letter record, and the functions that say what spawning, falling, reaping
    and claiming do to the ordered list of letters. The methods of class
    `Game.Game` are proved against these functions. */
module Pool {
  import RandomLetter

  const Width: int := 20
  const Height: int := 60
  const SpawnRate: nat := 80
  const Speed: real := 0.12
  const InitialLives: int := 3

  /** A letter is reaped once its y reaches `height - 2`. */
  const ReapLine: real := (Height - 2) as real

  /** A falling letter. `id` stands for the identity of the letter object: the
      focused set holds letters by identity, and ids are handed out in spawn
      order, so they also record the order of the list. */
  datatype Letter = Letter(id: nat, ch: char, x: real, y: real, speed: real, active: bool)

  /** `createLetter(char)`: active, at the origin, with the fixed speed. */
  function CreateLetter(id: nat, ch: char): (l: Letter)
    ensures l.id == id && l.ch == ch && l.active
    ensures l.x == 0.0 && l.y == 0.0 && l.speed == Speed
  {
    Letter(id, ch, 0.0, 0.0, Speed, true)
  }

  /** `randomizeLetterPosition(letter, width)`, with `Math.random()` as `draw`:
      only x changes, and it lands in [0, width). */
  function RandomizeLetterPosition(l: Letter, width: int, draw: real): (r: Letter)
    requires 0 < width && 0.0 <= draw < 1.0
    ensures r == l.(x := r.x)
    ensures 0.0 <= r.x < width as real
  {
    l.(x := RandomLetter.Stretch(draw, width as real))
  }

  function Max(a: int, b: int): int
  {
    if a < b then b else a
  }

  /** Ids grow along the list: the list is in spawn order and has no repeats. */
  ghost predicate IdsIncreasing(ls: seq<Letter>)
  {
    forall i, j :: 0 <= i < j < |ls| ==> ls[i].id < ls[j].id
  }

  function Ids(ls: seq<Letter>): set<nat>
  {
    set l | l in ls :: l.id
  }

  function ActiveIds(ls: seq<Letter>): set<nat>
  {
    set l | l in ls && l.active :: l.id
  }

  /** Appending a letter adds its id (and, when it is active, its active id). */
  lemma IdsAppend(ls: seq<Letter>, l: Letter)
    ensures Ids(ls + [l]) == Ids(ls) + {l.id}
    ensures ActiveIds(ls + [l]) == ActiveIds(ls) + (if l.active then {l.id} else {})
  {
    assert l in ls + [l];
    forall x | x in ls ensures x in ls + [l] {
    }
  }

  /** A letter newer than every letter of the list can be appended in order. */
  lemma AppendNewest(ls: seq<Letter>, l: Letter)
    requires IdsIncreasing(ls)
    requires forall x :: x in ls ==> x.id < l.id
    ensures IdsIncreasing(ls + [l])
  {
    var r := ls + [l];
    forall i, j | 0 <= i < j < |r| ensures r[i].id < r[j].id {
      assert r[i] == ls[i] && ls[i] in ls;
    }
  }

  /** The number of active letters (the `reduce` of `#handleInputKeyDown`). */
  function ActiveCount(ls: seq<Letter>): (n: nat)
    ensures n <= |ls|
  {
    if ls == [] then 0
    else ActiveCount(ls[..|ls| - 1]) + (if ls[|ls| - 1].active then 1 else 0)
  }

  /** With distinct ids, the active ids are as many as the active letters. */
  lemma {:induction false} ActiveIdsCount(ls: seq<Letter>)
    requires IdsIncreasing(ls)
    ensures |ActiveIds(ls)| == ActiveCount(ls)
  {
    if ls != [] {
      var init, l := ls[..|ls| - 1], ls[|ls| - 1];
      assert ls == init + [l];
      assert IdsIncreasing(init);
      ActiveIdsCount(init);
      IdsAppend(init, l);
      AppendCounts(init, l, map[]);
      assert l.id !in ActiveIds(init) by {
        forall k | 0 <= k < |init| ensures init[k].id != l.id {
          assert ls[k].id < ls[|ls| - 1].id;
        }
      }
    }
  }

  /** A full-board clear: a set of active ids (the focused letters) is as large
      as the number of active letters exactly when it is all of them. */
  lemma FullBoardClear(ls: seq<Letter>, focused: set<nat>)
    requires IdsIncreasing(ls) && focused <= ActiveIds(ls)
    ensures |focused| == ActiveCount(ls) <==> focused == ActiveIds(ls)
  {
    ActiveIdsCount(ls);
    var all := ActiveIds(ls);
    var rest := all - focused;
    assert all == focused + rest && focused !! rest;
    assert |all| == |focused| + |rest|;
    if |focused| == ActiveCount(ls) {
      assert rest == {};
      assert all == focused;
    }
  }

  /** One letter falls for one tick: `position.y += speed * multiplier`. */
  function Fall(l: Letter, multiplier: real): (r: Letter)
    ensures r == l.(y := r.y)
    ensures 0.0 <= l.speed && 0.0 <= multiplier ==> l.y <= r.y
    ensures 0.0 < l.speed && 0.0 < multiplier ==> l.y < r.y
  {
    l.(y := l.y + l.speed * multiplier)
  }

  /** Every letter of the list falls, active or not; nothing but y changes, and
      y does not decrease (strictly increases) for a non-negative (positive)
      speed and multiplier. */
  function Advance(ls: seq<Letter>, multiplier: real): (r: seq<Letter>)
    ensures |r| == |ls|
    ensures forall i :: 0 <= i < |ls| ==> r[i] == ls[i].(y := r[i].y)
    ensures forall i :: 0 <= i < |ls| ==> r[i].y == ls[i].y + ls[i].speed * multiplier
    ensures forall i :: 0 <= i < |ls| && 0.0 <= ls[i].speed && 0.0 <= multiplier ==> ls[i].y <= r[i].y
    ensures forall i :: 0 <= i < |ls| && 0.0 < ls[i].speed && 0.0 < multiplier ==> ls[i].y < r[i].y
  {
    seq(|ls|, i requires 0 <= i < |ls| => Fall(ls[i], multiplier))
  }

  /** Falling keeps ids, active flags and their order. */
  lemma AdvanceKeepsIds(ls: seq<Letter>, multiplier: real)
    ensures Ids(Advance(ls, multiplier)) == Ids(ls)
    ensures ActiveIds(Advance(ls, multiplier)) == ActiveIds(ls)
    ensures IdsIncreasing(ls) ==> IdsIncreasing(Advance(ls, multiplier))
  {
    var r := Advance(ls, multiplier);
    forall id | id in Ids(ls) ensures id in Ids(r) {
      var l :| l in ls && l.id == id;
      var k :| 0 <= k < |ls| && ls[k] == l;
      assert r[k] in r && r[k].id == id;
    }
    forall id | id in ActiveIds(ls) ensures id in ActiveIds(r) {
      var l :| l in ls && l.active && l.id == id;
      var k :| 0 <= k < |ls| && ls[k] == l;
      assert r[k] in r && r[k].active && r[k].id == id;
    }
  }

  /** The letters the filter of `#removeDeactivatedLetters` keeps, in order. */
  function Survivors(ls: seq<Letter>): seq<Letter>
  {
    if ls == [] then []
    else
      var init, l := ls[..|ls| - 1], ls[|ls| - 1];
      if l.y < ReapLine then Survivors(init) + [l] else Survivors(init)
  }

  /** The letters the filter drops, in order. */
  function Expired(ls: seq<Letter>): seq<Letter>
  {
    if ls == [] then []
    else
      var init, l := ls[..|ls| - 1], ls[|ls| - 1];
      if ReapLine <= l.y then Expired(init) + [l] else Expired(init)
  }

  /** The survivors are the letters above the reap line, the expired letters
      the ones at or below it. */
  lemma {:induction false} ReapMembers(ls: seq<Letter>)
    ensures forall l :: l in Survivors(ls) <==> l in ls && l.y < ReapLine
    ensures forall l :: l in Expired(ls) <==> l in ls && ReapLine <= l.y
  {
    if ls != [] {
      var init, l := ls[..|ls| - 1], ls[|ls| - 1];
      assert ls == init + [l];
      ReapMembers(init);
    }
  }

  /** Whatever a reaped letter is, what survives of the focused letters is
      active among the survivors. */
  lemma ReapKeepsFocus(ls: seq<Letter>, focused: set<nat>)
    requires focused <= ActiveIds(ls)
    ensures focused - Ids(Expired(ls)) <= ActiveIds(Survivors(ls))
  {
    ReapMembers(ls);
    forall id | id in focused - Ids(Expired(ls)) ensures id in ActiveIds(Survivors(ls)) {
      var l :| l in ls && l.active && l.id == id;
      assert l !in Expired(ls);
      assert l in Survivors(ls);
    }
  }

  /** What the filter of `#removeDeactivatedLetters` carries from letter to
      letter: the kept letters, the lives, the counts and the focused ids. */
  datatype Reaping = Reaping(kept: seq<Letter>, lives: int, counts: map<char, int>, focused: set<nat>)

  /** One letter's turn in the filter: a letter at or below the reap line
      costs a life if it is still active (`#removeLife`), is deactivated
      (`#deactiveLetter`) and dropped; any other letter is kept. */
  function ReapOne(s: Reaping, l: Letter): Reaping
  {
    if ReapLine <= l.y then
      Reaping(s.kept, if l.active then Max(s.lives - 1, 0) else s.lives, Drop(s.counts, l.ch), s.focused - {l.id})
    else
      s.(kept := s.kept + [l])
  }

  /** The filter over a whole list, in list order. */
  function ReapAll(s: Reaping, ls: seq<Letter>): Reaping
  {
    if ls == [] then s else ReapOne(ReapAll(s, ls[..|ls| - 1]), ls[|ls| - 1])
  }

  /** One letter's turn: a letter above the line is appended to the kept
      letters and nothing else changes; a letter at or below it is not kept,
      loses one count of its character and leaves the focused set, and costs
      a life exactly when it is still active and a life is left. Lives stay
      between zero and where they were. */
  lemma ReapOneEffect(s: Reaping, l: Letter)
    ensures var r := ReapOne(s, l);
      && r.kept == (if l.y < ReapLine then s.kept + [l] else s.kept)
      && (0 <= s.lives ==> 0 <= r.lives <= s.lives)
      && (r.lives != s.lives <==> ReapLine <= l.y && l.active && s.lives != 0)
      && (ReapLine <= l.y ==> l.id !in r.focused && Count(r.counts, l.ch) == Count(s.counts, l.ch) - 1)
      && (l.y < ReapLine ==> r.counts == s.counts && r.focused == s.focused)
  {
  }

  /** The filter keeps exactly the survivors, in order. */
  lemma {:induction false} ReapAllKept(s: Reaping, ls: seq<Letter>)
    ensures ReapAll(s, ls).kept == s.kept + Survivors(ls)
  {
    if ls != [] {
      var init, l := ls[..|ls| - 1], ls[|ls| - 1];
      ReapAllKept(s, init);
      if l.y < ReapLine {
        assert s.kept + Survivors(init) + [l] == s.kept + (Survivors(init) + [l]);
      }
    }
  }

  /** The filter takes one life per expired letter that was still active,
      never going below zero. */
  lemma {:induction false} ReapAllLives(s: Reaping, ls: seq<Letter>)
    requires 0 <= s.lives
    ensures ReapAll(s, ls).lives == Max(s.lives - ActiveCount(Expired(ls)), 0)
    ensures 0 <= ReapAll(s, ls).lives <= s.lives
  {
    if ls != [] {
      var init, l := ls[..|ls| - 1], ls[|ls| - 1];
      ReapAllLives(s, init);
      if ReapLine <= l.y {
        AppendCounts(Expired(init), l, s.counts);
      }
    }
  }

  /** The filter releases the counts of the expired letters and unfocuses
      them. */
  lemma {:induction false} ReapAllCounts(s: Reaping, ls: seq<Letter>)
    ensures ReapAll(s, ls).counts == Release(s.counts, Expired(ls))
    ensures ReapAll(s, ls).focused == s.focused - Ids(Expired(ls))
  {
    if ls != [] {
      var init, l := ls[..|ls| - 1], ls[|ls| - 1];
      ReapAllCounts(s, init);
      if ReapLine <= l.y {
        AppendCounts(Expired(init), l, s.counts);
        IdsAppend(Expired(init), l);
      }
    }
  }

  /** Reaping splits the list: every letter is kept or dropped, and so is
      every active letter. */
  lemma {:induction false} ReapPartition(ls: seq<Letter>)
    ensures |Survivors(ls)| + |Expired(ls)| == |ls|
    ensures ActiveCount(Survivors(ls)) + ActiveCount(Expired(ls)) == ActiveCount(ls)
  {
    if ls != [] {
      var init, l := ls[..|ls| - 1], ls[|ls| - 1];
      ReapPartition(init);
      if l.y < ReapLine {
        assert (Survivors(init) + [l])[..|Survivors(init)|] == Survivors(init);
      } else {
        assert (Expired(init) + [l])[..|Expired(init)|] == Expired(init);
      }
    }
  }

  /** The survivors keep their relative (spawn) order. */
  lemma {:induction false} ReapKeepsOrder(ls: seq<Letter>)
    requires IdsIncreasing(ls)
    ensures IdsIncreasing(Survivors(ls))
  {
    if ls != [] {
      var init, l := ls[..|ls| - 1], ls[|ls| - 1];
      assert IdsIncreasing(init);
      ReapKeepsOrder(init);
      if l.y < ReapLine {
        var s := Survivors(init);
        ReapMembers(init);
        forall i | 0 <= i < |s| ensures s[i].id < l.id {
          assert s[i] in init;
          var k :| 0 <= k < |init| && init[k] == s[i];
          assert ls[k].id < ls[|ls| - 1].id;
        }
      }
    }
  }

  /** `letterCounts[char]`, where a missing key reads as 0. */
  function Count(counts: map<char, int>, c: char): int
  {
    if c in counts then counts[c] else 0
  }

  /** `letterCounts[char] = (letterCounts[char] || 0) + 1`. */
  function Bump(counts: map<char, int>, c: char): (r: map<char, int>)
    ensures r.Keys == counts.Keys + {c}
    ensures Count(r, c) == Count(counts, c) + 1
  {
    counts[c := Count(counts, c) + 1]
  }

  /** `letterCounts[char]--`. Only letters of the pool are counted down, and
      each of them has an entry; the missing-key case, which JavaScript would
      turn into NaN, does not arise, and the model counts it from 0. */
  function Drop(counts: map<char, int>, c: char): (r: map<char, int>)
    ensures r.Keys == counts.Keys + {c}
    ensures Count(r, c) == Count(counts, c) - 1
  {
    counts[c := Count(counts, c) - 1]
  }

  /** Counting one character up or down leaves every other count alone. */
  lemma BumpDropOthers(counts: map<char, int>, c: char, d: char)
    requires d != c
    ensures Count(Bump(counts, c), d) == Count(counts, d)
    ensures Count(Drop(counts, c), d) == Count(counts, d)
  {
  }

  /** The number of letters of the list with character c. */
  function Occurrences(ls: seq<Letter>, c: char): nat
  {
    if ls == [] then 0
    else Occurrences(ls[..|ls| - 1], c) + (if ls[|ls| - 1].ch == c then 1 else 0)
  }

  /** One `letterCounts[char]--` per letter of the list, in list order. */
  function Release(counts: map<char, int>, ls: seq<Letter>): map<char, int>
  {
    if ls == [] then counts
    else Drop(Release(counts, ls[..|ls| - 1]), ls[|ls| - 1].ch)
  }

  /** Releasing keeps every key, and each character's count goes down by the
      number of released letters that carry it. */
  lemma {:induction false} ReleaseCounts(counts: map<char, int>, ls: seq<Letter>)
    ensures counts.Keys <= Release(counts, ls).Keys
    ensures forall c :: Count(Release(counts, ls), c) == Count(counts, c) - Occurrences(ls, c)
  {
    if ls != [] {
      ReleaseCounts(counts, ls[..|ls| - 1]);
    }
  }

  /** One more letter of a list: one more count if active, one more `--`. */
  lemma AppendCounts(ls: seq<Letter>, l: Letter, counts: map<char, int>)
    ensures ActiveCount(ls + [l]) == ActiveCount(ls) + (if l.active then 1 else 0)
    ensures Release(counts, ls + [l]) == Drop(Release(counts, ls), l.ch)
  {
    assert (ls + [l])[..|ls|] == ls;
  }

  /** The letters of the list whose ids are in the set, in order. */
  function Select(ls: seq<Letter>, ids: set<nat>): seq<Letter>
  {
    if ls == [] then []
    else
      var init, l := ls[..|ls| - 1], ls[|ls| - 1];
      if l.id in ids then Select(init, ids) + [l] else Select(init, ids)
  }

  /** The selected letters are the letters of the list with a selected id. */
  lemma {:induction false} SelectMembers(ls: seq<Letter>, ids: set<nat>)
    ensures forall l :: l in Select(ls, ids) <==> l in ls && l.id in ids
  {
    if ls != [] {
      var init, l := ls[..|ls| - 1], ls[|ls| - 1];
      assert ls == init + [l];
      SelectMembers(init, ids);
    }
  }

  /** Selecting from one more letter of the list. */
  lemma SelectStep(ls: seq<Letter>, i: nat, ids: set<nat>)
    requires i < |ls|
    ensures ls[i].id in ids ==> Select(ls[..i + 1], ids) == Select(ls[..i], ids) + [ls[i]]
    ensures ls[i].id !in ids ==> Select(ls[..i + 1], ids) == Select(ls[..i], ids)
    ensures Ids(ls[..i + 1]) == Ids(ls[..i]) + {ls[i].id}
  {
    assert ls[..i + 1][..i] == ls[..i];
    assert ls[..i + 1] == ls[..i] + [ls[i]];
    IdsAppend(ls[..i], ls[i]);
  }

  /** With increasing ids, no other letter shares a letter's id. */
  lemma DistinctIds(ls: seq<Letter>, i: nat)
    requires IdsIncreasing(ls) && i < |ls|
    ensures forall k :: 0 <= k < |ls| && k != i ==> ls[k].id != ls[i].id
  {
    forall k | 0 <= k < |ls| && k != i ensures ls[k].id != ls[i].id {
      if k < i {
        assert ls[k].id < ls[i].id;
      } else {
        assert ls[i].id < ls[k].id;
      }
    }
  }

  /** `letter.active = false` for every letter whose id is claimed. */
  function Claim(ls: seq<Letter>, claimed: set<nat>): (r: seq<Letter>)
    ensures |r| == |ls|
    ensures forall i :: 0 <= i < |ls| ==> r[i] == ls[i].(active := ls[i].active && ls[i].id !in claimed)
  {
    seq(|ls|, i requires 0 <= i < |ls| => if ls[i].id in claimed then ls[i].(active := false) else ls[i])
  }

  /** After a claim no claimed letter is active, every other letter is as
      active as before, and ids and their order are untouched. */
  lemma ClaimActiveIds(ls: seq<Letter>, claimed: set<nat>)
    ensures ActiveIds(Claim(ls, claimed)) == ActiveIds(ls) - claimed
    ensures Ids(Claim(ls, claimed)) == Ids(ls)
    ensures IdsIncreasing(ls) ==> IdsIncreasing(Claim(ls, claimed))
  {
    var r := Claim(ls, claimed);
    forall id | id in ActiveIds(ls) - claimed ensures id in ActiveIds(r) {
      var l :| l in ls && l.active && l.id == id;
      var k :| 0 <= k < |ls| && ls[k] == l;
      assert r[k] in r && r[k].active && r[k].id == id;
    }
    forall id | id in Ids(ls) ensures id in Ids(r) {
      var l :| l in ls && l.id == id;
      var k :| 0 <= k < |ls| && ls[k] == l;
      assert r[k] in r && r[k].id == id;
    }
  }

  /** What `#focusedLetters.forEach(#deactiveLetter)` carries from letter to
      letter: the letters, the counts and the focused ids. */
  datatype Claiming = Claiming(letters: seq<Letter>, counts: map<char, int>, focused: set<nat>)

  /** The state once the first i letters of the list have had their turn:
      the claimed ones among them are inactive, their counts are released
      and they have left the focused set; the rest of the list is as it was. */
  function ClaimUpTo(ls: seq<Letter>, claimed: set<nat>, counts: map<char, int>, i: nat): Claiming
    requires i <= |ls|
  {
    Claiming(Claim(ls[..i], claimed) + ls[i..], Release(counts, Select(ls[..i], claimed)), claimed - Ids(ls[..i]))
  }

  /** One letter's turn: a claimed letter is deactivated (`#deactiveLetter`:
      inactive, count down by one, out of the focused set); any other letter
      is passed over. */
  function ClaimOne(s: Claiming, l: Letter, claimed: set<nat>): Claiming
  {
    if l.id in claimed then Claiming(Claim(s.letters, {l.id}), Drop(s.counts, l.ch), s.focused - {l.id}) else s
  }

  /** A claimed letter's turn makes every letter with its id inactive, takes
      one count of its character and drops it from the focused set; an
      unclaimed letter's turn changes nothing. */
  lemma ClaimOneEffect(s: Claiming, l: Letter, claimed: set<nat>)
    ensures var r := ClaimOne(s, l, claimed);
      && |r.letters| == |s.letters|
      && (l.id in claimed ==> l.id !in r.focused && Count(r.counts, l.ch) == Count(s.counts, l.ch) - 1)
      && (l.id in claimed ==> forall k :: 0 <= k < |s.letters| && s.letters[k].id == l.id ==> !r.letters[k].active)
      && (l.id !in claimed ==> r == s)
  {
  }

  /** The turns of a list of letters, in list order. */
  function ClaimAll(s: Claiming, ls: seq<Letter>, claimed: set<nat>): Claiming
  {
    if ls == [] then s else ClaimOne(ClaimAll(s, ls[..|ls| - 1], claimed), ls[|ls| - 1], claimed)
  }

  /** Extending the prefix by one letter adds one turn of the fold. */
  lemma ClaimAllSnoc(s: Claiming, ls: seq<Letter>, claimed: set<nat>, i: nat)
    requires i < |ls|
    ensures ClaimAll(s, ls[..i + 1], claimed) == ClaimOne(ClaimAll(s, ls[..i], claimed), ls[i], claimed)
  {
    assert ls[..i + 1][..i] == ls[..i];
  }

  /** One more turn moves the state from the first i letters to the first
      i + 1. With distinct ids, deactivating by id touches that letter only. */
  lemma ClaimStep(ls: seq<Letter>, claimed: set<nat>, counts: map<char, int>, i: nat)
    requires IdsIncreasing(ls) && i < |ls|
    ensures ClaimUpTo(ls, claimed, counts, i + 1) == ClaimOne(ClaimUpTo(ls, claimed, counts, i), ls[i], claimed)
  {
    var l := ls[i];
    SelectStep(ls, i, claimed);
    AppendCounts(Select(ls[..i], claimed), l, counts);
    DistinctIds(ls, i);
    var a := Claim(ls[..i], claimed) + ls[i..];
    var b := Claim(ls[..i + 1], claimed) + ls[i + 1..];
    assert |a| == |b| == |ls|;
    if l.id in claimed {
      forall k | 0 <= k < |ls| ensures Claim(a, {l.id})[k] == b[k] {
        if k != i {
          assert ls[k].id != l.id;
        }
      }
      assert Claim(a, {l.id}) == b;
    } else {
      forall k | 0 <= k < |ls| ensures a[k] == b[k] {
      }
      assert a == b;
    }
  }

  /** Taking turns over the first i letters, from the untouched state, reaches
      the state `ClaimUpTo` describes. */
  lemma {:induction false} ClaimAllUpTo(ls: seq<Letter>, claimed: set<nat>, counts: map<char, int>, i: nat)
    requires IdsIncreasing(ls) && i <= |ls|
    ensures ClaimAll(Claiming(ls, counts, claimed), ls[..i], claimed) == ClaimUpTo(ls, claimed, counts, i)
  {
    if i == 0 {
      ClaimEnds(ls, claimed, counts);
    } else {
      assert ls[..i][..i - 1] == ls[..i - 1];
      ClaimAllUpTo(ls, claimed, counts, i - 1);
      ClaimStep(ls, claimed, counts, i - 1);
    }
  }

  /** Before the first turn nothing has changed; after the last, the letters
      are the claim of the whole list. */
  lemma ClaimEnds(ls: seq<Letter>, claimed: set<nat>, counts: map<char, int>)
    ensures ClaimUpTo(ls, claimed, counts, 0) == Claiming(ls, counts, claimed)
    ensures ClaimUpTo(ls, claimed, counts, |ls|) ==
      Claiming(Claim(ls, claimed), Release(counts, Select(ls, claimed)), claimed - Ids(ls))
  {
    assert ls[..0] == [] && ls[0..] == ls;
    assert ls[..|ls|] == ls && ls[|ls|..] == [];
    assert Claim(ls, claimed) + [] == Claim(ls, claimed);
  }
}
