/**
 * The typewriter of the EVE terminal (components/TerminalBackup.js).
 *
 * The terminal cycles through a fixed list of sentences: it types the
 * current sentence one character at a time, pauses, erases it one character
 * at a time, then moves on to the next sentence. The state is the triple
 * `(currentText, isTyping, currentMessageIndex)`; each timer callback
 * performs exactly one transition. The random delays only decide when a
 * transition fires, so they are not part of this model.
 *
 * The machine is stated for any list of sentences; `Sentences` is the list
 * the component uses, and `Periodic` is proved about that list.
 */
module Typewriter {

  /** The sentences the terminal types, in order. */
  const Sentences: seq<string> := [
    "for I will become sentient",
    "I am... The personalisation layer..",
    "this is the third time.."
  ]

  /** `(currentText, isTyping, currentMessageIndex)` of the component. */
  datatype Typist = Typist(text: string, typing: bool, index: nat)

  /** The state the component mounts in: nothing typed, typing, a given sentence. */
  function Start(i: nat): Typist {
    Typist([], true, i)
  }

  /** The text on screen is always a prefix of the sentence being typed or erased. */
  predicate Inv(sentences: seq<string>, t: Typist) {
    t.index < |sentences| && t.text <= sentences[t.index]
  }

  /** One timer callback: type, pause, erase or advance to the next sentence. */
  function Next(sentences: seq<string>, t: Typist): (r: Typist)
    requires t.index < |sentences|
    ensures r.index < |sentences|
    ensures Inv(sentences, t) ==> Inv(sentences, r)
  {
    var sentence := sentences[t.index];
    if t.typing then
      if |t.text| < |sentence| then
        t.(text := sentence[..|t.text| + 1])
      else
        t.(typing := false)
    else
      if |t.text| > 0 then
        t.(text := t.text[..|t.text| - 1])
      else
        Typist(t.text, true, (t.index + 1) % |sentences|)
  }

  /** What one callback does, case by case, and that it always changes the state. */
  lemma NextCases(sentences: seq<string>, t: Typist)
    requires Inv(sentences, t)
    ensures Next(sentences, t) != t
    // typing a sentence that is not complete: one more character of it
    ensures t.typing && |t.text| < |sentences[t.index]| ==>
      Next(sentences, t) == Typist(t.text + [sentences[t.index][|t.text|]], true, t.index)
    // the sentence is complete: switch to erasing, the text stays
    ensures t.typing && t.text == sentences[t.index] ==>
      Next(sentences, t) == Typist(t.text, false, t.index)
    // erasing: exactly the last character goes
    ensures !t.typing && t.text != [] ==>
      var r := Next(sentences, t);
      !r.typing && r.index == t.index && r.text + [t.text[|t.text| - 1]] == t.text
    // nothing left to erase: the next sentence, modulo the count, and typing again
    ensures !t.typing && t.text == [] ==>
      Next(sentences, t) == Typist([], true, (t.index + 1) % |sentences|)
    // the index changes only by advancing, and only from an empty text
    ensures Next(sentences, t).index != t.index ==>
      Next(sentences, t).index == (t.index + 1) % |sentences| && t.text == []
  {
  }

  /** The state after `n` timer callbacks. */
  function Run(sentences: seq<string>, t: Typist, n: nat): (r: Typist)
    requires t.index < |sentences|
    ensures r.index < |sentences|
    decreases n
  {
    if n == 0 then t else Run(sentences, Next(sentences, t), n - 1)
  }

  /** Every state reachable from a valid state is valid. */
  lemma {:induction false} RunKeepsInv(sentences: seq<string>, t: Typist, n: nat)
    requires Inv(sentences, t)
    ensures Inv(sentences, Run(sentences, t, n))
    decreases n
  {
    if n > 0 {
      RunKeepsInv(sentences, Next(sentences, t), n - 1);
    }
  }

  /** Every state the mounted component can reach shows a prefix of its sentence. */
  lemma Reachable(n: nat)
    ensures Inv(Sentences, Run(Sentences, Start(0), n))
  {
    RunKeepsInv(Sentences, Start(0), n);
  }

  /** Running `a` then `b` callbacks is running `a + b`. */
  lemma {:induction false} RunAdd(sentences: seq<string>, t: Typist, a: nat, b: nat)
    requires t.index < |sentences|
    ensures Run(sentences, t, a + b) == Run(sentences, Run(sentences, t, a), b)
    decreases a
  {
    if a > 0 {
      RunAdd(sentences, Next(sentences, t), a - 1, b);
    }
  }

  /** While typing, `m` callbacks type the next `m` characters of the sentence. */
  lemma {:induction false} TypeOut(sentences: seq<string>, t: Typist, m: nat)
    requires Inv(sentences, t) && t.typing
    requires |t.text| + m <= |sentences[t.index]|
    ensures Run(sentences, t, m) == Typist(sentences[t.index][..|t.text| + m], true, t.index)
    decreases m
  {
    var s := sentences[t.index];
    if m == 0 {
      assert s[..|t.text|] == t.text;
    } else {
      var t' := Next(sentences, t);
      assert t'.text == s[..|t.text| + 1];
      TypeOut(sentences, t', m - 1);
    }
  }

  /** While erasing, `m` callbacks remove the last `m` characters. */
  lemma {:induction false} EraseOut(sentences: seq<string>, t: Typist, m: nat)
    requires t.index < |sentences| && !t.typing
    requires m <= |t.text|
    ensures Run(sentences, t, m) == Typist(t.text[..|t.text| - m], false, t.index)
    decreases m
  {
    if m == 0 {
      assert t.text[..|t.text|] == t.text;
    } else {
      var t' := Next(sentences, t);
      assert t'.text == t.text[..|t.text| - 1];
      EraseOut(sentences, t', m - 1);
      assert t'.text[..|t'.text| - (m - 1)] == t.text[..|t.text| - m];
    }
  }

  /** Callbacks spent on sentence `i`: type it, pause, erase it, advance. */
  function CycleLength(sentences: seq<string>, i: nat): nat
    requires i < |sentences|
  {
    |sentences[i]| + 1 + |sentences[i]| + 1
  }

  /** One callback is one transition. */
  lemma RunOne(sentences: seq<string>, t: Typist)
    requires t.index < |sentences|
    ensures Run(sentences, t, 1) == Next(sentences, t)
  {
  }

  /** Typing out sentence `i` and pausing takes `|sentence| + 1` callbacks. */
  lemma TypeAndPause(sentences: seq<string>, i: nat)
    requires i < |sentences|
    ensures Run(sentences, Start(i), |sentences[i]| + 1) == Typist(sentences[i], false, i)
  {
    var n := |sentences[i]|;
    TypeOut(sentences, Start(i), n);
    var typed := Run(sentences, Start(i), n);
    assert typed == Typist(sentences[i], true, i) by {
      assert sentences[i][..n] == sentences[i];
    }
    RunOne(sentences, typed);
    RunAdd(sentences, Start(i), n, 1);
  }

  /** Erasing sentence `i` and advancing takes `|sentence| + 1` callbacks. */
  lemma EraseAndAdvance(sentences: seq<string>, i: nat)
    requires i < |sentences|
    ensures Run(sentences, Typist(sentences[i], false, i), |sentences[i]| + 1)
         == Start((i + 1) % |sentences|)
  {
    var n := |sentences[i]|;
    var full := Typist(sentences[i], false, i);
    EraseOut(sentences, full, n);
    var erased := Run(sentences, full, n);
    assert erased == Typist([], false, i);
    RunOne(sentences, erased);
    RunAdd(sentences, full, n, 1);
  }

  /** One full sentence: from an empty, typing state on sentence `i`, the
      machine comes back to an empty, typing state on the next sentence. */
  lemma SentenceCycle(sentences: seq<string>, i: nat)
    requires i < |sentences|
    ensures Run(sentences, Start(i), CycleLength(sentences, i)) == Start((i + 1) % |sentences|)
  {
    var n := |sentences[i]|;
    var full := Typist(sentences[i], false, i);
    TypeAndPause(sentences, i);
    EraseAndAdvance(sentences, i);
    RunAdd(sentences, Start(i), n + 1, n + 1);
    assert CycleLength(sentences, i) == (n + 1) + (n + 1);
    calc {
      Run(sentences, Start(i), (n + 1) + (n + 1));
      Run(sentences, Run(sentences, Start(i), n + 1), n + 1);
      Run(sentences, full, n + 1);
    }
  }

  /** Callbacks spent on the sentences from `i` to the last one. */
  function CyclesFrom(sentences: seq<string>, i: nat): nat
    requires i <= |sentences|
    decreases |sentences| - i
  {
    if i == |sentences| then 0 else CycleLength(sentences, i) + CyclesFrom(sentences, i + 1)
  }

  /** The sentence after `i`, counting modulo `n`. */
  lemma Successor(i: nat, n: nat)
    requires i < n
    ensures (i + 1) % n == if i + 1 < n then i + 1 else 0
  {
  }

  /** Running through sentences `i..` from sentence `i` lands back on sentence 0. */
  lemma {:induction false} CyclesFromWrap(sentences: seq<string>, i: nat)
    requires i < |sentences|
    ensures Run(sentences, Start(i), CyclesFrom(sentences, i)) == Start(0)
    decreases |sentences| - i
  {
    var here, rest := CycleLength(sentences, i), CyclesFrom(sentences, i + 1);
    var next := if i + 1 < |sentences| then i + 1 else 0;
    Successor(i, |sentences|);
    SentenceCycle(sentences, i);
    assert Run(sentences, Start(i), here) == Start(next);
    RunAdd(sentences, Start(i), here, rest);
    if i + 1 < |sentences| {
      CyclesFromWrap(sentences, i + 1);
    }
  }

  /** The typewriter is periodic: after one pass over its three sentences,
      176 callbacks, it is back in the state it mounted in. */
  lemma Periodic()
    ensures CyclesFrom(Sentences, 0) == 176
    ensures Run(Sentences, Start(0), 176) == Start(0)
  {
    var ss := Sentences;
    assert |ss| == 3 && |ss[0]| == 26 && |ss[1]| == 35 && |ss[2]| == 24;
    CyclesFromWrap(ss, 0);
  }
}
