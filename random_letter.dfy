/** The weighted letter source of `src/randomLetter.ts`: a frequency table, the
    flattened table that holds every key `weight` times in key order, and one
    draw from it. The random number is a parameter `draw` in [0, 1). */
module RandomLetter {

  /** The weight table, keys in their declaration order A..Z. */
  const Weights: seq<(char, nat)> := [
    ('A', 2), ('B', 1), ('C', 1), ('D', 1), ('E', 2), ('F', 1), ('G', 1),
    ('H', 1), ('I', 2), ('J', 1), ('K', 1), ('L', 1), ('M', 1), ('N', 1),
    ('O', 2), ('P', 1), ('Q', 1), ('R', 1), ('S', 1), ('T', 1), ('U', 2),
    ('V', 1), ('W', 1), ('X', 1), ('Y', 2), ('Z', 1)
  ]

  /** `new Array(n).fill(c)`: n copies of c. */
  function Repeat(c: char, n: nat): (r: seq<char>)
    ensures |r| == n
    ensures forall i :: 0 <= i < n ==> r[i] == c
  {
    if n == 0 then [] else Repeat(c, n - 1) + [c]
  }

  /** The sum of the weights of a table. */
  function TotalWeight(w: seq<(char, nat)>): nat
  {
    if w == [] then 0 else TotalWeight(w[..|w| - 1]) + w[|w| - 1].1
  }

  /** The keys of a table. */
  ghost function Keys(w: seq<(char, nat)>): set<char>
  {
    set i | 0 <= i < |w| :: w[i].0
  }

  /** The keys appear in strictly increasing order (so each key once). */
  ghost predicate KeysIncreasing(w: seq<(char, nat)>)
  {
    forall i, j :: 0 <= i < j < |w| ==> w[i].0 < w[j].0
  }

  /** The flattened table: the block of copies of each key, in key order. */
  function Flatten(w: seq<(char, nat)>): (r: seq<char>)
    ensures |r| == TotalWeight(w)
    ensures forall k :: 0 <= k < |r| ==> r[k] in Keys(w)
  {
    if w == [] then []
    else
      var init := w[..|w| - 1];
      assert forall c :: c in Keys(init) ==> c in Keys(w) by {
        forall c | c in Keys(init) ensures c in Keys(w) {
          var i :| 0 <= i < |init| && init[i].0 == c;
          assert w[i].0 == c;
        }
      }
      assert w[|w| - 1].0 in Keys(w);
      Flatten(init) + Repeat(w[|w| - 1].0, w[|w| - 1].1)
  }

  /** n copies of c hold c n times and nothing else. */
  lemma {:induction false} RepeatCount(c: char, n: nat, d: char)
    ensures multiset(Repeat(c, n))[d] == if d == c then n else 0
  {
    if n > 0 {
      RepeatCount(c, n - 1, d);
    }
  }

  /** Flattening a prefix of the table gives a prefix of the flattened table. */
  lemma {:induction false} FlattenPrefix(w: seq<(char, nat)>, i: nat)
    requires i <= |w|
    ensures TotalWeight(w[..i]) <= TotalWeight(w)
    ensures Flatten(w)[..TotalWeight(w[..i])] == Flatten(w[..i])
  {
    if i == |w| {
      assert w[..i] == w;
    } else {
      var init := w[..|w| - 1];
      FlattenPrefix(init, i);
      assert init[..i] == w[..i];
    }
  }

  /** The j-th copy of the i-th key sits at the i-th key's offset plus j: each
      key's copies form one block, and the blocks follow the key order. */
  lemma FlattenBlock(w: seq<(char, nat)>, i: nat, j: nat)
    requires i < |w| && j < w[i].1
    ensures TotalWeight(w[..i]) + j < |Flatten(w)|
    ensures Flatten(w)[TotalWeight(w[..i]) + j] == w[i].0
  {
    FlattenPrefix(w, i + 1);
    assert w[..i + 1][..i] == w[..i];
  }

  /** The last key does not occur in the flattened table of the keys before it. */
  lemma LastKeyFresh(w: seq<(char, nat)>)
    requires KeysIncreasing(w) && w != []
    ensures w[|w| - 1].0 !in Flatten(w[..|w| - 1])
  {
    var init, last := w[..|w| - 1], w[|w| - 1];
    assert last.0 !in Keys(init) by {
      forall k | 0 <= k < |init| ensures init[k].0 != last.0 {
        assert w[k].0 < w[|w| - 1].0;
      }
    }
  }

  /** When the keys are distinct, each key occurs in the flattened table exactly
      as often as its weight. */
  lemma {:induction false} FlattenCount(w: seq<(char, nat)>, i: nat)
    requires KeysIncreasing(w) && i < |w|
    ensures multiset(Flatten(w))[w[i].0] == w[i].1
  {
    var init, last := w[..|w| - 1], w[|w| - 1];
    assert multiset(Flatten(w)) == multiset(Flatten(init)) + multiset(Repeat(last.0, last.1));
    RepeatCount(last.0, last.1, w[i].0);
    if i == |w| - 1 {
      LastKeyFresh(w);
    } else {
      assert w[i].0 < last.0;
      assert KeysIncreasing(init);
      FlattenCount(init, i);
    }
  }

  /** The module-level `letters` array. */
  const Letters: seq<char> := Flatten(Weights)

  /** The `forEach` that builds `letters`: push each key's block of copies. */
  method BuildLetters(weights: seq<(char, nat)>) returns (letters: seq<char>)
    ensures letters == Flatten(weights)
  {
    letters := [];
    for i := 0 to |weights|
      invariant letters == Flatten(weights[..i])
    {
      assert weights[..i + 1][..i] == weights[..i];
      letters := letters + Repeat(weights[i].0, weights[i].1);
    }
    assert weights[..|weights|] == weights;
  }

  /** A draw in [0, 1) stretched over a span: below the span. */
  function Stretch(draw: real, span: real): (r: real)
    requires 0.0 <= draw < 1.0 && 0.0 < span
    ensures 0.0 <= r < span
  {
    draw * span
  }

  /** `randomNumber(min, max)`: a draw in [0, 1) moved onto [min, max). */
  function RandomNumber(draw: real, min: real, max: real): (r: real)
    requires 0.0 <= draw < 1.0 && min < max
    ensures min <= r < max
  {
    Stretch(draw, max - min) + min
  }

  /** `randomLetter()`: the element of `letters` at `floor(randomNumber(0, letters.length))`. */
  function RandomLetter(draw: real): (c: char)
    requires 0.0 <= draw < 1.0
    ensures c in Keys(Weights)
    ensures 'A' <= c <= 'Z'
  {
    WeightsTable();
    var num := RandomNumber(draw, 0.0, |Letters| as real).Floor;
    Letters[num]
  }

  /** The keys of the table are A..Z, in that order. */
  lemma KeysAreAlphabet()
    ensures |Weights| == 26
    ensures forall i :: 0 <= i < |Weights| ==> Weights[i].0 == ('A' as int + i) as char
  {
  }

  /** Weight 2 exactly for A, E, I, O, U and Y, and weight 1 for every other key. */
  lemma HeavyKeysAreVowelsAndY()
    ensures forall i :: 0 <= i < |Weights| ==> (Weights[i].1 == 2 <==> Weights[i].0 in "AEIOUY")
    ensures forall i :: 0 <= i < |Weights| ==> Weights[i].1 == 1 || Weights[i].1 == 2
  {
  }

  /** The facts about the literal table that a draw relies on: total weight 32,
      keys in increasing order, and the key set is exactly A..Z. */
  lemma WeightsTable()
    ensures TotalWeight(Weights) == 32 && |Letters| == 32
    ensures KeysIncreasing(Weights)
    ensures forall c :: c in Keys(Weights) <==> 'A' <= c <= 'Z'
  {
    KeysAreAlphabet();
    PrefixWeight(26);
    assert Weights[..26] == Weights;
    forall c | 'A' <= c <= 'Z' ensures c in Keys(Weights) {
      var i := c as int - 'A' as int;
      assert Weights[i].0 == c;
    }
  }

  /** The running total of the table: one per key, plus one more for each of
      the heavy keys A, E, I, O, U, Y (positions 0, 4, 8, 14, 20, 24) passed. */
  lemma {:induction false} PrefixWeight(k: nat)
    requires k <= |Weights|
    ensures TotalWeight(Weights[..k]) == k + (if k > 0 then 1 else 0) + (if k > 4 then 1 else 0)
      + (if k > 8 then 1 else 0) + (if k > 14 then 1 else 0) + (if k > 20 then 1 else 0)
      + (if k > 24 then 1 else 0)
  {
    if k > 0 {
      PrefixWeight(k - 1);
      assert Weights[..k][..k - 1] == Weights[..k - 1];
    }
  }

  /** In the built table every letter A..Z occurs twice if it is a vowel or Y
      and once otherwise, 32 entries in all. */
  lemma LetterOccurrences(c: char)
    requires 'A' <= c <= 'Z'
    ensures multiset(Letters)[c] == if c in "AEIOUY" then 2 else 1
  {
    KeysAreAlphabet();
    HeavyKeysAreVowelsAndY();
    WeightsTable();
    var i := c as int - 'A' as int;
    FlattenCount(Weights, i);
  }
}
