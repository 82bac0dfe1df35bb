/** The game of `src/game.ts`: class `Game`, its fields and its handlers. The
    DOM work around them (rendering letters, creating and removing nodes,
    classes and text of the score, lives and game-over elements) is not
    modelled. Random numbers and timestamps are parameters. */
module Game {
  import opened Pool
  import opened Matcher
  import RandomLetter
  import ValidateWord
  import Animate

  /** The transient cue `#toggleAnimationClass` shows after a key press. */
  datatype Feedback = NoCue | ValidCue | BonusCue | InvalidCue

  predicate IsAsciiLetter(c: char)
  {
    'A' <= c <= 'Z' || 'a' <= c <= 'z'
  }

  function ToUpper(c: char): char
  {
    if 'a' <= c <= 'z' then (c as int - 32) as char else c
  }

  /** `value.trim().replace(/[^A-Za-z]/g, '').toUpperCase()`: the letters of the
      input, in order, upper-cased. Trimming drops only whitespace, which the
      filter drops anyway. */
  function Normalize(s: string): (r: string)
    ensures |r| <= |s|
    ensures forall i :: 0 <= i < |r| ==> 'A' <= r[i] <= 'Z'
  {
    if s == [] then []
    else (if IsAsciiLetter(s[0]) then [ToUpper(s[0])] else []) + Normalize(s[1..])
  }

  /** A word of upper-case letters is already normal. */
  lemma {:induction false} NormalizeKeepsWords(s: string)
    requires forall i :: 0 <= i < |s| ==> 'A' <= s[i] <= 'Z'
    ensures Normalize(s) == s
  {
    if s != [] {
      NormalizeKeepsWords(s[1..]);
    }
  }

  /** Normalizing twice is normalizing once. */
  lemma NormalizeIdempotent(s: string)
    ensures Normalize(Normalize(s)) == Normalize(s)
  {
    NormalizeKeepsWords(Normalize(s));
  }

  /** Normalizing works character by character: typing more text onto the
      input normalizes to the old word followed by the new text's letters. */
  lemma {:induction false} NormalizeAppend(s: string, t: string)
    ensures Normalize(s + t) == Normalize(s) + Normalize(t)
  {
    if s == [] {
      assert s + t == t;
    } else {
      var u := s + t;
      assert u[0] == s[0] && u[1..] == s[1..] + t;
      NormalizeAppend(s[1..], t);
      if IsAsciiLetter(s[0]) {
        calc {
          Normalize(u);
          [ToUpper(s[0])] + Normalize(s[1..] + t);
          [ToUpper(s[0])] + (Normalize(s[1..]) + Normalize(t));
          ([ToUpper(s[0])] + Normalize(s[1..])) + Normalize(t);
        }
      } else {
        calc {
          Normalize(u);
          [] + Normalize(s[1..] + t);
          Normalize(s[1..]) + Normalize(t);
        }
      }
    }
  }

  /** A character that is not an ASCII letter is dropped. */
  lemma NormalizeDropsNonLetter(c: char)
    requires !IsAsciiLetter(c)
    ensures Normalize([c]) == []
  {
    assert [c][1..] == [];
  }

  /** An ASCII letter is kept, upper-cased: a lower-case letter becomes its
      capital, a capital stays. With `NormalizeAppend` this determines the
      normal form of every input. */
  lemma NormalizeKeepsLetter(c: char)
    requires IsAsciiLetter(c)
    ensures Normalize([c]) == [ToUpper(c)]
    ensures 'a' <= c <= 'z' ==> ToUpper(c) as int == c as int - 32
    ensures 'A' <= c <= 'Z' ==> ToUpper(c) == c
  {
    assert [c][1..] == [];
  }

  /** Typing a word in any mix of cases and lower-casing the normal form gives
      the word lower-cased: the dictionary lookup sees what was typed,
      whatever its case. */
  lemma NormalizeThenLower(w: string)
    requires forall i :: 0 <= i < |w| ==> IsAsciiLetter(w[i])
    ensures ValidateWord.LowerCase(Normalize(w)) == ValidateWord.LowerCase(w)
  {
    NormalizeLetters(w);
    var n := Normalize(w);
    var lower, expected := ValidateWord.LowerCase(n), ValidateWord.LowerCase(w);
    forall i | 0 <= i < |w|
      ensures lower[i] == expected[i]
    {
      LowerOfUpper(w[i]);
    }
    assert lower == expected;
  }

  /** A lower-case word, normalised and then lower-cased for the lookup,
      comes back as itself. */
  lemma NormalizeRoundTrip(w: string)
    requires forall i :: 0 <= i < |w| ==> 'a' <= w[i] <= 'z'
    ensures ValidateWord.LowerCase(Normalize(w)) == w
  {
    NormalizeThenLower(w);
    var lower := ValidateWord.LowerCase(w);
    forall i | 0 <= i < |w| ensures lower[i] == w[i] {
    }
    assert lower == w;
  }

  /** Lower-casing forgets an earlier upper-casing. */
  lemma LowerOfUpper(c: char)
    ensures ValidateWord.ToLower(ToUpper(c)) == ValidateWord.ToLower(c)
  {
  }

  /** On a word of letters only, `normalize` upper-cases letter by letter. */
  lemma {:induction false} NormalizeLetters(w: string)
    requires forall i :: 0 <= i < |w| ==> IsAsciiLetter(w[i])
    ensures |Normalize(w)| == |w|
    ensures forall i :: 0 <= i < |w| ==> Normalize(w)[i] == ToUpper(w[i])
  {
    if w != [] {
      NormalizeLetters(w[1..]);
      assert Normalize(w) == [ToUpper(w[0])] + Normalize(w[1..]);
    }
  }

  /** A lower-case line of the word list, typed in any case, is found. */
  lemma TypedWordIsFound(words: set<string>, line: string, typed: string)
    requires line in words && |typed| == |line|
    requires forall i :: 0 <= i < |line| ==> 'a' <= line[i] <= 'z'
    requires forall i :: 0 <= i < |typed| ==> typed[i] == line[i] || typed[i] as int == line[i] as int - 32
    ensures ValidateWord.ValidateWord(words, Normalize(typed))
  {
    forall i | 0 <= i < |typed| ensures IsAsciiLetter(typed[i]) && ValidateWord.ToLower(typed[i]) == line[i] {
    }
    NormalizeThenLower(typed);
    assert ValidateWord.LowerCase(typed) == line;
  }

  /** The points for an accepted word: `word.length * 2` when the focused
      letters are as many as the active letters and more than one, otherwise
      `word.length`. */
  function Award(word: string, focusedCount: nat, activeCount: nat): (points: nat)
    ensures points == |word| || points == 2 * |word|
    ensures word != [] ==> (points == 2 * |word| <==> focusedCount == activeCount && focusedCount > 1)
  {
    if focusedCount == activeCount && focusedCount > 1 then |word| * 2 else |word|
  }

  /** The points of an accepted word, read through the pool's invariant (ids
      distinct, focused letters active): the bonus is paid exactly when the
      focused letters are all the active letters and more than one; after the
      claim, exactly the focused letters have stopped being active, so a bonus
      leaves no active letter on the board. */
  lemma AwardMeansFullBoard(ls: seq<Letter>, focused: set<nat>, word: string)
    requires IdsIncreasing(ls) && focused <= ActiveIds(ls)
    ensures Award(word, |focused|, ActiveCount(ls)) ==
      if focused == ActiveIds(ls) && |focused| > 1 then 2 * |word| else |word|
    ensures ActiveIds(Claim(ls, focused)) == ActiveIds(ls) - focused
    ensures focused == ActiveIds(ls) ==> ActiveIds(Claim(ls, focused)) == {}
  {
    FullBoardClear(ls, focused);
    ClaimActiveIds(ls, focused);
  }

  /** The letter `#addLetter` spawns: `createLetter(randomLetter())` placed by
      `randomizeLetterPosition`. It is active, at the top, with the fixed
      speed, an upper-case character and an x inside the field. */
  function Spawned(id: nat, letterDraw: real, xDraw: real): (l: Letter)
    requires 0.0 <= letterDraw < 1.0 && 0.0 <= xDraw < 1.0
    ensures l.id == id && l.active && l.y == 0.0 && l.speed == Speed
    ensures 0.0 <= l.x < Width as real && 'A' <= l.ch <= 'Z'
  {
    RandomizeLetterPosition(CreateLetter(id, RandomLetter.RandomLetter(letterDraw)), Width, xDraw)
  }

  /** The inner loop of `#focusInputLetters`: scan the working list for the
      letter's character; at the first hit, splice that copy out and stop.
      Reports whether a copy was found; the list left is `RemoveFirst`. */
  method SpliceFirst(inputLetters: seq<char>, ch: char) returns (rest: seq<char>, found: bool)
    ensures found <==> ch in inputLetters
    ensures rest == RemoveFirst(inputLetters, ch)
  {
    rest, found := inputLetters, false;
    var i := 0;
    while i < |inputLetters|
      invariant 0 <= i <= |inputLetters|
      invariant forall k :: 0 <= k < i ==> inputLetters[k] != ch
    {
      if inputLetters[i] == ch {
        RemoveFirstAt(inputLetters, ch, i);
        rest, found := inputLetters[..i] + inputLetters[i + 1..], true;
        return;
      }
      i := i + 1;
    }
  }

  /** The walk of `#focusInputLetters`: the typed word is split into a working
      list; each active letter, oldest first, takes the first copy of its
      character out of it and is focused. The result is `Focus`. */
  method FocusedBy(letters: seq<Letter>, word: string) returns (found: set<nat>)
    ensures found == Focus(letters, word)
  {
    var inputLetters := word;
    found := {};
    ghost var matched: seq<Letter> := [];
    var i := 0;
    assert letters[i..] == letters;
    assert matched + Match(letters[i..], inputLetters) == Match(letters, word);
    while i < |letters|
      invariant 0 <= i <= |letters|
      invariant matched + Match(letters[i..], inputLetters) == Match(letters, word)
      invariant found == Ids(matched)
    {
      var letter := letters[i];
      MatchWalk(letters, i, inputLetters, matched, Match(letters, word));
      if letter.active {
        var hit;
        inputLetters, hit := SpliceFirst(inputLetters, letter.ch);
        if hit {
          IdsAppend(matched, letter);
          found := found + {letter.id};
          matched := matched + [letter];
        }
      }
      i := i + 1;
    }
    assert letters[|letters|..] == [];
    assert matched == Match(letters, word);
  }

  /** A letter of the pool: spawned before `nextId` was handed out, with a
      count entry for its character, inside the field, at the fixed speed. */
  predicate Placed(l: Letter, nextId: nat, counts: map<char, int>)
  {
    l.id < nextId && l.ch in counts && 0.0 <= l.x < Width as real && l.speed == Speed
  }

  /** Reaping keeps the pool's invariant: the survivors are in order, placed,
      above the reap line, with their counts; what stays focused is active;
      lives stay between zero and where they were. */
  lemma ReapKeepsPool(s: Reaping, ls: seq<Letter>, nextId: nat)
    requires s.kept == [] && 0 <= s.lives
    requires IdsIncreasing(ls) && s.focused <= ActiveIds(ls)
    requires forall l :: l in ls ==> Placed(l, nextId, s.counts)
    ensures var r := ReapAll(s, ls);
      && IdsIncreasing(r.kept)
      && (forall l :: l in r.kept ==> Placed(l, nextId, r.counts) && l.y < ReapLine)
      && r.focused <= ActiveIds(r.kept)
      && 0 <= r.lives <= s.lives
  {
    ReapAllKept(s, ls);
    ReapAllLives(s, ls);
    ReapAllCounts(s, ls);
    assert ReapAll(s, ls).kept == Survivors(ls);
    ReapKeepsOrder(ls);
    ReapKeepsFocus(ls, s.focused);
    ReapMembers(ls);
    ReleaseCounts(s.counts, Expired(ls));
  }

  /** Claiming the focused letters keeps the pool's invariant: ids and order
      are untouched, every letter keeps its count entry, and no focused id is
      left over, because every focused id belongs to a letter of the list. */
  lemma ClaimKeepsPool(ls: seq<Letter>, counts: map<char, int>, focused: set<nat>, nextId: nat)
    requires IdsIncreasing(ls) && focused <= ActiveIds(ls)
    requires forall l :: l in ls ==> Placed(l, nextId, counts)
    ensures IdsIncreasing(Claim(ls, focused))
    ensures forall l :: l in Claim(ls, focused) ==> Placed(l, nextId, Release(counts, Select(ls, focused)))
    ensures focused - Ids(ls) == {}
  {
    ClaimActiveIds(ls, focused);
    ReleaseCounts(counts, Select(ls, focused));
    var r := Claim(ls, focused);
    forall l | l in r ensures Placed(l, nextId, Release(counts, Select(ls, focused))) {
      var k :| 0 <= k < |r| && r[k] == l;
      assert ls[k] in ls;
    }
    forall id | id in focused ensures id in Ids(ls) {
      var l :| l in ls && l.active && l.id == id;
    }
  }

  /** What one `#handleLoop(frame, multiplier)` makes of the letters, counts,
      lives and focused set, with the id the next spawned letter gets: a
      letter is spawned on every `spawnRate`-th frame, the focus is
      recomputed, every letter falls and the filter reaps. */
  function LoopStep(letters: seq<Letter>, counts: map<char, int>, lives: int, word: string, nextId: nat,
                    frame: nat, multiplier: real, letterDraw: real, xDraw: real): (r: (Reaping, nat))
    requires 0.0 <= letterDraw < 1.0 && 0.0 <= xDraw < 1.0
    ensures r.1 == nextId + (if frame % SpawnRate == 0 then 1 else 0)
  {
    var spawn := frame % SpawnRate == 0;
    var spawned := Spawned(nextId, letterDraw, xDraw);
    var grown := if spawn then letters + [spawned] else letters;
    var grownCounts := if spawn then Bump(counts, spawned.ch) else counts;
    (ReapAll(Reaping([], lives, grownCounts, Focus(grown, word)), Advance(grown, multiplier)), nextId + (if spawn then 1 else 0))
  }

  /** After one tick the letters left are above the reap line and are
      letters of the list (grown by the spawn) after their fall, and lives
      stay between zero and where they were. */
  lemma LoopStepBounds(letters: seq<Letter>, counts: map<char, int>, lives: int, word: string, nextId: nat,
                       frame: nat, multiplier: real, letterDraw: real, xDraw: real)
    requires 0.0 <= letterDraw < 1.0 && 0.0 <= xDraw < 1.0
    ensures var r := LoopStep(letters, counts, lives, word, nextId, frame, multiplier, letterDraw, xDraw);
      var grown := if frame % SpawnRate == 0 then letters + [Spawned(nextId, letterDraw, xDraw)] else letters;
      && (0 <= lives ==> 0 <= r.0.lives <= lives)
      && (forall l :: l in r.0.kept ==> l.y < ReapLine && l in Advance(grown, multiplier))
  {
    var spawn := frame % SpawnRate == 0;
    var spawned := Spawned(nextId, letterDraw, xDraw);
    var grown := if spawn then letters + [spawned] else letters;
    var grownCounts := if spawn then Bump(counts, spawned.ch) else counts;
    var start := Reaping([], lives, grownCounts, Focus(grown, word));
    var fallen := Advance(grown, multiplier);
    ReapAllKept(start, fallen);
    ReapMembers(fallen);
    if 0 <= lives {
      ReapAllLives(start, fallen);
    }
  }

  /** The page's text input: `stop()` disables it, `start()` and `reset()`
      enable it, and a disabled input delivers no `input` or `keydown`
      events to the game. */
  class InputElement {
    var disabled: bool

    constructor (disabled: bool)
      ensures this.disabled == disabled
    {
      this.disabled := disabled;
    }
  }

  /** What the browser delivers to the game: an animation frame (with the two
      `Math.random()` draws a spawn would use), an `input` event with the
      input's raw value, or a `keydown` event. */
  datatype Event =
    | Frame(timestamp: int, letterDraw: real, xDraw: real)
    | InputChange(value: string)
    | KeyDown(key: string)

  /** The draws of a frame are `Math.random()` values, in [0, 1). */
  predicate Drawable(e: Event)
  {
    e.Frame? ==> 0.0 <= e.letterDraw < 1.0 && 0.0 <= e.xDraw < 1.0
  }

  class Game {
    /** The bundled word list `validateWord` looks words up in. */
    const words: set<string>
    const loop: Animate.Loop
    const input: InputElement

    var letters: seq<Letter>
    var letterCounts: map<char, int>
    var score: int
    var lives: int
    var focused: set<nat>
    var usedWords: set<string>
    var currentWord: string
    /** The id the next spawned letter gets: the allocation of letter objects. */
    var nextId: nat

    /** The pool's invariant: letters in spawn order with distinct ids, each
        inside the field with the fixed speed and a count entry; focused
        letters are active letters of the list; score and lives in range. */
    ghost predicate Valid()
      reads this
    {
      && IdsIncreasing(letters)
      && (forall l :: l in letters ==> Placed(l, nextId, letterCounts))
      && focused <= ActiveIds(letters)
      && 0 <= score && 0 <= lives <= InitialLives
    }

    /** Between ticks no letter is at or below the reap line. */
    ghost predicate Settled()
      reads this
    {
      forall l :: l in letters ==> l.y < ReapLine
    }

    /** The field initialisers of `Game`, on the page's input element, whose
        `disabled` flag the page sets; the other DOM lookups and the event
        wiring of the constructor are not modelled. */
    constructor (words: set<string>, inputDisabled: bool)
      ensures Valid() && Settled()
      ensures this.words == words && fresh(loop) && !loop.active && !loop.hasCallback
      ensures fresh(input) && input.disabled == inputDisabled
      ensures letters == [] && letterCounts == map[] && score == 0 && lives == InitialLives
      ensures focused == {} && usedWords == {} && currentWord == ""
    {
      this.words := words;
      loop := new Animate.Loop();
      input := new InputElement(inputDisabled);
      letters := [];
      letterCounts := map[];
      score := 0;
      lives := InitialLives;
      focused := {};
      usedWords := {};
      currentWord := "";
      nextId := 0;
    }

    /** `start()`: reset, enable the input, then start the clock with
        `#handleLoop` as callback. */
    method Start(now: int) returns (scheduled: bool)
      modifies this, loop, input
      ensures Valid() && Settled() && !input.disabled
      ensures letters == [] && letterCounts == map[] && score == 0 && lives == InitialLives
      ensures focused == {} && usedWords == {} && currentWord == ""
      ensures scheduled && loop.active && loop.hasCallback && loop.frame == 0
      ensures loop.interval == Animate.IntervalFor(Animate.DefaultFps) && loop.fps == Animate.DefaultFps
      ensures loop.startTime == now && loop.previousTime == now
      ensures loop.currentTime == old(loop.currentTime) && loop.deltaTime == old(loop.deltaTime)
    {
      Reset();
      input.disabled := false;
      scheduled := loop.Start(true, Animate.DefaultFps, now);
    }

    /** `stop()`: stop the clock and disable the input; the game's own state
        is untouched. */
    method Stop()
      modifies loop, input
      ensures input.disabled
      ensures !loop.active && loop.frame == old(loop.frame) && loop.interval == old(loop.interval)
      ensures loop.previousTime == old(loop.previousTime) && loop.hasCallback == old(loop.hasCallback)
      ensures loop.fps == old(loop.fps) && loop.startTime == old(loop.startTime)
      ensures loop.currentTime == old(loop.currentTime) && loop.deltaTime == old(loop.deltaTime)
    {
      loop.Stop();
      input.disabled := true;
    }

    /** `reset()`: stop the clock, put every field back to its initial value
        and enable the input. */
    method Reset()
      modifies this, loop, input
      ensures Valid() && Settled() && !input.disabled
      ensures letters == [] && letterCounts == map[] && score == 0 && lives == InitialLives
      ensures focused == {} && usedWords == {} && currentWord == ""
      ensures nextId == old(nextId)
      ensures !loop.active && loop.frame == old(loop.frame) && loop.interval == old(loop.interval)
      ensures loop.previousTime == old(loop.previousTime) && loop.hasCallback == old(loop.hasCallback)
      ensures loop.fps == old(loop.fps) && loop.startTime == old(loop.startTime)
      ensures loop.currentTime == old(loop.currentTime) && loop.deltaTime == old(loop.deltaTime)
    {
      loop.Stop();
      score := 0;
      lives := InitialLives;
      letters := [];
      letterCounts := map[];
      focused := {};
      usedWords := {};
      currentWord := "";
      input.disabled := false;
    }

    /** One animation frame: the clock's `animate(timestamp)`, which runs
        `#handleLoop` on a logical step, then asks whether it is still active
        to schedule the next frame. */
    method AnimationFrame(timestamp: int, letterDraw: real, xDraw: real) returns (reschedule: bool)
      requires Valid() && loop.interval > 0
      requires 0.0 <= letterDraw < 1.0 && 0.0 <= xDraw < 1.0
      modifies this, loop, input
      ensures Valid()
      ensures reschedule == loop.active
      ensures loop.interval == old(loop.interval) && loop.hasCallback == old(loop.hasCallback)
      ensures loop.fps == old(loop.fps) && loop.startTime == old(loop.startTime)
      ensures loop.currentTime == timestamp && loop.deltaTime == timestamp - old(loop.previousTime)
      ensures input.disabled ==
        (old(input.disabled) || (Animate.Decide(old(loop.previousTime), timestamp, old(loop.interval)).Tick? && loop.hasCallback && lives == 0))
      ensures Animate.Decide(old(loop.previousTime), timestamp, old(loop.interval)).Skip? ==>
        unchanged(this) && loop.frame == old(loop.frame) && loop.active == old(loop.active)
        && loop.previousTime == old(loop.previousTime)
      ensures Animate.Decide(old(loop.previousTime), timestamp, old(loop.interval)).Tick? ==>
        loop.frame == old(loop.frame) + 1 && score == old(score) && lives <= old(lives)
        && loop.previousTime == Animate.Decide(old(loop.previousTime), timestamp, old(loop.interval)).previous
        && usedWords == old(usedWords) && currentWord == old(currentWord)
      ensures Animate.Decide(old(loop.previousTime), timestamp, old(loop.interval)).Tick? && loop.hasCallback ==>
        && (Reaping(letters, lives, letterCounts, focused), nextId) ==
           LoopStep(old(letters), old(letterCounts), old(lives), old(currentWord), old(nextId), old(loop.frame) + 1,
                    Animate.Decide(old(loop.previousTime), timestamp, old(loop.interval)).multiplier, letterDraw, xDraw)
        && Settled() && (reschedule <==> old(loop.active) && lives != 0)
      ensures Animate.Decide(old(loop.previousTime), timestamp, old(loop.interval)).Tick? && !loop.hasCallback ==>
        unchanged(this)
    {
      ghost var step := Animate.Decide(loop.previousTime, timestamp, loop.interval);
      ghost var frame := loop.frame + 1;
      var call := loop.Animate(timestamp);
      ghost var clock := (loop.interval, loop.hasCallback, loop.fps, loop.startTime, loop.currentTime, loop.deltaTime, loop.previousTime, loop.frame);
      if call.Some? {
        assert call.value == Animate.Call(frame, step.multiplier);
        HandleLoop(call.value.frame, call.value.multiplier, letterDraw, xDraw);
      }
      assert (loop.interval, loop.hasCallback, loop.fps, loop.startTime, loop.currentTime, loop.deltaTime, loop.previousTime, loop.frame) == clock;
      reschedule := loop.IsActive();
    }

    /** `#handleLoop(frame, multiplier)`: one tick of the game, then stop
        once no life is left. */
    method HandleLoop(frame: nat, multiplier: real, letterDraw: real, xDraw: real)
      requires Valid()
      requires 0.0 <= letterDraw < 1.0 && 0.0 <= xDraw < 1.0
      modifies this, loop, input
      ensures Valid() && Settled()
      ensures input.disabled == (old(input.disabled) || lives == 0)
      ensures (Reaping(letters, lives, letterCounts, focused), nextId) ==
        LoopStep(old(letters), old(letterCounts), old(lives), old(currentWord), old(nextId), frame, multiplier, letterDraw, xDraw)
      ensures lives <= old(lives)
      ensures score == old(score) && usedWords == old(usedWords) && currentWord == old(currentWord)
      ensures lives != 0 ==> unchanged(loop)
      ensures lives == 0 ==> !loop.active && loop.frame == old(loop.frame) && loop.interval == old(loop.interval)
      ensures lives == 0 ==> loop.previousTime == old(loop.previousTime) && loop.hasCallback == old(loop.hasCallback)
      ensures lives == 0 ==> loop.fps == old(loop.fps) && loop.startTime == old(loop.startTime)
      ensures lives == 0 ==> loop.currentTime == old(loop.currentTime) && loop.deltaTime == old(loop.deltaTime)
    {
      Tick(frame, multiplier, letterDraw, xDraw);
      if lives == 0 {
        Stop();
      }
    }

    /** The body of `#handleLoop` before the lives check: spawn on every
        `spawnRate`-th frame, recompute the focus, let every letter fall and
        reap the letters at the bottom. */
    method Tick(frame: nat, multiplier: real, letterDraw: real, xDraw: real)
      requires Valid()
      requires 0.0 <= letterDraw < 1.0 && 0.0 <= xDraw < 1.0
      modifies this
      ensures Valid() && Settled()
      ensures (Reaping(letters, lives, letterCounts, focused), nextId) ==
        LoopStep(old(letters), old(letterCounts), old(lives), old(currentWord), old(nextId), frame, multiplier, letterDraw, xDraw)
      ensures lives <= old(lives)
      ensures score == old(score) && usedWords == old(usedWords) && currentWord == old(currentWord)
    {
      ghost var spawned := Spawned(nextId, letterDraw, xDraw);
      ghost var grown := if frame % SpawnRate == 0 then letters + [spawned] else letters;
      ghost var grownCounts := if frame % SpawnRate == 0 then Bump(letterCounts, spawned.ch) else letterCounts;
      ghost var start := Reaping([], lives, grownCounts, Focus(grown, currentWord));
      ghost var fallen := Advance(grown, multiplier);
      ghost var after := (ReapAll(start, fallen), nextId + (if frame % SpawnRate == 0 then 1 else 0));
      assert after == LoopStep(letters, letterCounts, lives, currentWord, nextId, frame, multiplier, letterDraw, xDraw);
      var tick := frame % SpawnRate;
      if tick == 0 {
        AddLetter(letterDraw, xDraw);
      }
      assert letters == grown && letterCounts == grownCounts;
      FocusInputLetters();
      assert Reaping([], lives, letterCounts, focused) == start;
      AdvanceLetters(multiplier);
      assert letters == fallen;
      RemoveDeactivatedLetters();
      assert (Reaping(letters, lives, letterCounts, focused), nextId) == after;
    }

    /** `#addLetter()`: append one new letter and count its character. */
    method AddLetter(letterDraw: real, xDraw: real)
      requires Valid()
      requires 0.0 <= letterDraw < 1.0 && 0.0 <= xDraw < 1.0
      modifies this
      ensures Valid()
      ensures letters == old(letters) + [Spawned(old(nextId), letterDraw, xDraw)]
      ensures letterCounts == Bump(old(letterCounts), Spawned(old(nextId), letterDraw, xDraw).ch)
      ensures nextId == old(nextId) + 1
      ensures score == old(score) && lives == old(lives) && focused == old(focused)
      ensures usedWords == old(usedWords) && currentWord == old(currentWord)
    {
      var letter := CreateLetter(nextId, RandomLetter.RandomLetter(letterDraw));
      nextId := nextId + 1;
      letter := RandomizeLetterPosition(letter, Width, xDraw);
      AppendNewest(letters, letter);
      IdsAppend(letters, letter);
      letters := letters + [letter];
      letterCounts := Bump(letterCounts, letter.ch);
    }

    /** `#focusInputLetters()`: throw the focused set away and match the typed
        word against the letters afresh; letters and word are only read. */
    method FocusInputLetters()
      requires Valid()
      modifies this
      ensures Valid()
      ensures focused == Focus(letters, currentWord)
      ensures letters == old(letters) && currentWord == old(currentWord)
      ensures letterCounts == old(letterCounts) && score == old(score) && lives == old(lives)
      ensures usedWords == old(usedWords) && nextId == old(nextId)
    {
      focused := FocusedBy(letters, currentWord);
    }

    /** The `map` of `#handleLoop`: every letter falls by `speed * multiplier`. */
    method AdvanceLetters(multiplier: real)
      requires Valid()
      modifies this
      ensures Valid()
      ensures letters == Advance(old(letters), multiplier)
      ensures letterCounts == old(letterCounts) && focused == old(focused) && score == old(score)
      ensures lives == old(lives) && usedWords == old(usedWords) && currentWord == old(currentWord)
      ensures nextId == old(nextId)
    {
      ghost var before := letters;
      var i := 0;
      while i < |letters|
        invariant 0 <= i <= |letters| && |letters| == |before|
        invariant forall k :: 0 <= k < i ==> letters[k] == Fall(before[k], multiplier)
        invariant forall k :: i <= k < |letters| ==> letters[k] == before[k]
        invariant letterCounts == old(letterCounts) && focused == old(focused) && score == old(score)
        invariant lives == old(lives) && usedWords == old(usedWords) && currentWord == old(currentWord)
        invariant nextId == old(nextId)
      {
        letters := letters[i := Fall(letters[i], multiplier)];
        i := i + 1;
      }
      assert letters == Advance(before, multiplier);
      AdvanceKeepsIds(before, multiplier);
      forall l | l in letters
        ensures Placed(l, nextId, letterCounts)
      {
        var k :| 0 <= k < |letters| && letters[k] == l;
        assert before[k] in before;
      }
    }

    /** `#removeDeactivatedLetters()`: keep the letters above the reap line;
        every letter at or below it costs a life if still active, is
        deactivated (count and focus) and dropped. */
    method RemoveDeactivatedLetters()
      requires Valid()
      modifies this
      ensures Valid() && Settled()
      ensures Reaping(letters, lives, letterCounts, focused) ==
        ReapAll(Reaping([], old(lives), old(letterCounts), old(focused)), old(letters))
      ensures lives <= old(lives)
      ensures score == old(score) && usedWords == old(usedWords) && currentWord == old(currentWord)
      ensures nextId == old(nextId)
    {
      var snap := letters;
      var kept: seq<Letter> := [];
      ghost var start := Reaping([], lives, letterCounts, focused);
      var i := 0;
      while i < |snap|
        invariant 0 <= i <= |snap|
        invariant Reaping(kept, lives, letterCounts, focused) == ReapAll(start, snap[..i])
        invariant score == old(score) && usedWords == old(usedWords) && currentWord == old(currentWord)
        invariant nextId == old(nextId)
      {
        var letter := snap[i];
        assert snap[..i + 1][..i] == snap[..i];
        if letter.y >= ReapLine {
          if letter.active {
            RemoveLife();
          }
          DeactivateLetter(letter);
        } else {
          kept := kept + [letter];
        }
        i := i + 1;
      }
      assert snap[..|snap|] == snap;
      letters := kept;
      ReapKeepsPool(start, snap, nextId);
    }

    /** `#deactiveLetter(letter)`: the letter stops being active, its
        character's count goes down by one, and it leaves the focused set. */
    method DeactivateLetter(letter: Letter)
      modifies this
      ensures letters == Claim(old(letters), {letter.id})
      ensures letterCounts == Drop(old(letterCounts), letter.ch)
      ensures focused == old(focused) - {letter.id}
      ensures score == old(score) && lives == old(lives) && usedWords == old(usedWords)
      ensures currentWord == old(currentWord) && nextId == old(nextId)
    {
      letters := Claim(letters, {letter.id});
      letterCounts := Drop(letterCounts, letter.ch);
      focused := focused - {letter.id};
    }

    /** `#removeLife()`: one life less, never below zero. */
    method RemoveLife()
      modifies this
      ensures lives == Max(old(lives) - 1, 0)
      ensures letters == old(letters) && letterCounts == old(letterCounts) && focused == old(focused)
      ensures score == old(score) && usedWords == old(usedWords) && currentWord == old(currentWord)
      ensures nextId == old(nextId)
    {
      lives := Max(lives - 1, 0);
    }

    /** `#handleInputChange()`: the typed word is the normalized input. */
    method HandleInputChange(value: string)
      requires Valid()
      modifies this
      ensures Valid()
      ensures currentWord == Normalize(value)
      ensures letters == old(letters) && letterCounts == old(letterCounts) && focused == old(focused)
      ensures score == old(score) && lives == old(lives) && usedWords == old(usedWords)
      ensures nextId == old(nextId)
    {
      currentWord := Normalize(value);
    }

    /** The `reduce` of `#handleInputKeyDown`: the number of active letters. */
    method CountActiveLetters() returns (n: nat)
      ensures n == ActiveCount(letters)
    {
      n := 0;
      for i := 0 to |letters|
        invariant n == ActiveCount(letters[..i])
      {
        assert letters[..i + 1][..i] == letters[..i];
        if letters[i].active {
          n := n + 1;
        }
      }
      assert letters[..|letters|] == letters;
    }

    /** `#handleInputKeyDown(event)`: on Enter, score the typed word. A word
        used before or not in the word list changes nothing but the cue. An
        accepted word scores its length, doubled on a full-board clear of more
        than one letter, claims every focused letter and is remembered. In
        both cases the typed word is cleared. */
    method HandleInputKeyDown(key: string) returns (feedback: Feedback)
      requires Valid()
      modifies this
      ensures Valid()
      ensures key != "Enter" ==> unchanged(this) && feedback == NoCue
      ensures key == "Enter" ==> currentWord == ""
      ensures lives == old(lives) && nextId == old(nextId) && score >= old(score)
      ensures key == "Enter" && old(currentWord) !in old(usedWords) && ValidateWord.ValidateWord(words, old(currentWord)) ==>
        && score == old(score) + Award(old(currentWord), |old(focused)|, ActiveCount(old(letters)))
        && letters == Claim(old(letters), old(focused))
        && focused == {}
        && letterCounts == Release(old(letterCounts), Select(old(letters), old(focused)))
        && usedWords == old(usedWords) + {old(currentWord)}
        && feedback == if |old(focused)| == ActiveCount(old(letters)) && |old(focused)| > 1 then BonusCue else ValidCue
      ensures key == "Enter" && !(old(currentWord) !in old(usedWords) && ValidateWord.ValidateWord(words, old(currentWord))) ==>
        && score == old(score) && letters == old(letters) && focused == old(focused)
        && letterCounts == old(letterCounts) && usedWords == old(usedWords)
        && feedback == InvalidCue
    {
      if key != "Enter" {
        return NoCue;
      }
      var word := currentWord;
      ghost var before := Claiming(letters, letterCounts, focused);
      var valid := word !in usedWords && ValidateWord.ValidateWord(words, word);
      if valid {
        var activeCount := CountActiveLetters();
        if |focused| == activeCount && |focused| > 1 {
          score := score + |word| * 2;
          feedback := BonusCue;
        } else {
          score := score + |word|;
          feedback := ValidCue;
        }
        assert Claiming(letters, letterCounts, focused) == before;
        ClaimFocused();
        assert Claiming(letters, letterCounts, focused) ==
          Claiming(Claim(before.letters, before.focused), Release(before.counts, Select(before.letters, before.focused)), {});
        usedWords := usedWords + {word};
      } else {
        feedback := InvalidCue;
      }
      currentWord := "";
    }

    /** `#focusedLetters.forEach(#deactiveLetter)`: the focused letters are
        visited in the order they were focused, which is list order. */
    method ClaimFocused()
      requires Valid()
      modifies this
      ensures Valid()
      ensures letters == Claim(old(letters), old(focused))
      ensures focused == {}
      ensures letterCounts == Release(old(letterCounts), Select(old(letters), old(focused)))
      ensures score == old(score) && lives == old(lives) && usedWords == old(usedWords)
      ensures currentWord == old(currentWord) && nextId == old(nextId)
    {
      var claimed := focused;
      var snap := letters;
      ghost var start := Claiming(letters, letterCounts, focused);
      var i := 0;
      assert snap[..i] == [];
      while i < |snap|
        invariant 0 <= i <= |snap|
        invariant Claiming(letters, letterCounts, focused) == ClaimAll(start, snap[..i], claimed)
        invariant score == old(score) && lives == old(lives) && usedWords == old(usedWords)
        invariant currentWord == old(currentWord) && nextId == old(nextId)
      {
        var letter := snap[i];
        ghost var before := Claiming(letters, letterCounts, focused);
        ClaimAllSnoc(start, snap, claimed, i);
        if letter.id in claimed {
          DeactivateLetter(letter);
        }
        assert Claiming(letters, letterCounts, focused) == ClaimOne(before, letter, claimed);
        i := i + 1;
      }
      assert snap[..|snap|] == snap;
      ClaimAllUpTo(snap, claimed, old(letterCounts), |snap|);
      ClaimEnds(snap, claimed, old(letterCounts));
      ClaimKeepsPool(snap, old(letterCounts), claimed, nextId);
    }

    /** The browser delivers one event. A frame runs `animate`; an `input` or
        `keydown` event reaches its handler only while the input is enabled.
        Whether the browser would still schedule a frame is not tracked: any
        frame may be delivered. */
    method Dispatch(e: Event) returns (feedback: Feedback)
      requires Valid() && loop.interval > 0 && Drawable(e)
      modifies this, loop, input
      ensures Valid() && loop.interval == old(loop.interval)
      ensures old(input.disabled) ==> input.disabled
      ensures e.Frame? ==> score == old(score) && usedWords == old(usedWords) && feedback == NoCue
      ensures !e.Frame? && old(input.disabled) ==> unchanged(this) && feedback == NoCue
      ensures !e.Frame? ==> unchanged(loop) && unchanged(input)
      ensures e.InputChange? && !old(input.disabled) ==>
        currentWord == Normalize(e.value) && score == old(score) && usedWords == old(usedWords)
    {
      feedback := NoCue;
      match e {
        case Frame(timestamp, letterDraw, xDraw) =>
          var _ := AnimationFrame(timestamp, letterDraw, xDraw);
        case InputChange(value) =>
          if !input.disabled {
            HandleInputChange(value);
          }
        case KeyDown(key) =>
          if !input.disabled {
            feedback := HandleInputKeyDown(key);
          }
      }
    }

    /** A run of events with no `start()` or `reset()` among them. Once the
        input is disabled, as `stop()` leaves it when `#handleLoop` sees the
        last life go, no word scores and none is remembered for the rest of
        the run. */
    method Replay(events: seq<Event>)
      requires Valid() && loop.interval > 0
      requires forall i :: 0 <= i < |events| ==> Drawable(events[i])
      modifies this, loop, input
      ensures Valid()
      ensures old(input.disabled) ==> input.disabled && score == old(score) && usedWords == old(usedWords)
    {
      var i := 0;
      while i < |events|
        invariant 0 <= i <= |events|
        invariant Valid() && loop.interval > 0
        invariant old(input.disabled) ==> input.disabled && score == old(score) && usedWords == old(usedWords)
      {
        var _ := Dispatch(events[i]);
        i := i + 1;
      }
    }
  }
}
