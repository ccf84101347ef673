/** The hero banner's typewriter animation: a small state machine that
    types a phrase out one character per tick, pauses, deletes it one
    character per tick and moves on to the next phrase.

    Ticks are scheduled with `setTimeout`; here a tick is a pure step that
    returns the next state, the text shown and the delay before the next
    tick. */
module Typing {

  /** The phrases the banner cycles through. */
  const Phrases: seq<string> := [
    "Civil & Criminal Law",
    "Cyber Crime & Digital Offences",
    "POCSO & Child Protection Laws",
    "Corporate & Startup Legal Services",
    "Property & Land Laws",
    "Medical & Healthcare Laws",
    "Criminal Procedure & Legal Remedies",
    "POSH Act & Sexual Offences",
    "Legal Consultancy & Advisory",
    "Drafting & Issuance of Legal Notices",
    "Rights, Duties & Legal Awareness",
    "Animal Welfare & Environmental Protection"
  ]

  const TypeDelay := 80
  const DeleteDelay := 40
  const PauseDelay := 2000
  const NextPhraseDelay := 400

  /** `phraseIndex`, `charIndex` and `isDeleting`. */
  datatype TypingState = TypingState(phrase: nat, chars: int, deleting: bool)

  /** What one tick does: the state after it, the text it shows and the
      delay before the next tick. */
  datatype Tick = Tick(next: TypingState, text: string, delay: nat)

  /** A usable phrase list: at least one phrase, none of them empty. */
  predicate WellFormed(phrases: seq<string>) {
    |phrases| > 0 && forall i :: 0 <= i < |phrases| ==> |phrases[i]| > 0
  }

  /** The invariant the tick keeps: the character count lies within the
      current phrase, a phrase being typed is not yet complete, and a
      phrase being deleted is not yet empty. */
  predicate Inv(phrases: seq<string>, s: TypingState) {
    && s.phrase < |phrases|
    && 0 <= s.chars <= |phrases[s.phrase]|
    && (!s.deleting ==> s.chars < |phrases[s.phrase]|)
    && (s.deleting ==> s.chars > 0)
  }

  /** JavaScript's `s.substring(0, end)`, which clamps `end` into
      `[0, s.length]`. */
  function Prefix(s: string, end: int): (r: string)
    ensures |r| <= |s| && r == s[..|r|]
    ensures 0 <= end <= |s| ==> |r| == end
    ensures end >= |s| ==> r == s
    ensures end <= 0 ==> r == []
  {
    if end <= 0 then [] else if end >= |s| then s else s[..end]
  }

  /** One call of `type()`. */
  function Step(phrases: seq<string>, s: TypingState): (t: Tick)
    requires WellFormed(phrases) && s.phrase < |phrases|
    ensures t.next.phrase < |phrases|
    ensures Inv(phrases, s) ==> Inv(phrases, t.next)
    ensures t.text <= phrases[s.phrase]
    ensures Inv(phrases, s) ==> |t.text| == if s.deleting then s.chars - 1 else s.chars + 1
    ensures t.next.phrase == s.phrase || (s.deleting && t.next.phrase == (s.phrase + 1) % |phrases|)
  {
    var current := phrases[s.phrase];
    var text := if s.deleting then Prefix(current, s.chars - 1) else Prefix(current, s.chars + 1);
    var chars := if s.deleting then s.chars - 1 else s.chars + 1;
    if !s.deleting && chars == |current| then
      Tick(TypingState(s.phrase, chars, true), text, PauseDelay)
    else if s.deleting && chars == 0 then
      Tick(TypingState((s.phrase + 1) % |phrases|, chars, false), text, NextPhraseDelay)
    else
      Tick(TypingState(s.phrase, chars, s.deleting), text, if s.deleting then DeleteDelay else TypeDelay)
  }

  /** The state after `n` ticks. */
  function Steps(phrases: seq<string>, s: TypingState, n: nat): (r: TypingState)
    requires WellFormed(phrases) && s.phrase < |phrases|
    ensures r.phrase < |phrases|
    decreases n
  {
    if n == 0 then s else Steps(phrases, Step(phrases, s).next, n - 1)
  }

  /** The invariant survives any number of ticks. */
  lemma {:induction false} StepsKeepInv(phrases: seq<string>, s: TypingState, n: nat)
    requires WellFormed(phrases) && Inv(phrases, s)
    ensures Inv(phrases, Steps(phrases, s, n))
    decreases n
  {
    if n > 0 {
      StepsKeepInv(phrases, Step(phrases, s).next, n - 1);
    }
  }

  lemma {:induction false} StepsAdd(phrases: seq<string>, s: TypingState, a: nat, b: nat)
    requires WellFormed(phrases) && s.phrase < |phrases|
    ensures Steps(phrases, s, a + b) == Steps(phrases, Steps(phrases, s, a), b)
    decreases a
  {
    if a > 0 {
      StepsAdd(phrases, Step(phrases, s).next, a - 1, b);
    }
  }

  // ---------------------------------------------------------------------------
  // The start the page uses

  /** The page starts with the first phrase's full length, not deleting. */
  function AsWrittenStart(phrases: seq<string>): (s: TypingState)
    requires WellFormed(phrases)
    ensures !Inv(phrases, s)
  {
    TypingState(0, |phrases[0]|, false)
  }

  /** From that start the animation never moves: each tick shows the whole
      first phrase and counts one character further past its end. */
  lemma {:induction false} AsWrittenNeverCycles(phrases: seq<string>, n: nat)
    requires WellFormed(phrases)
    ensures Steps(phrases, AsWrittenStart(phrases), n) == TypingState(0, |phrases[0]| + n, false)
    ensures Step(phrases, Steps(phrases, AsWrittenStart(phrases), n)).text == phrases[0]
    decreases n
  {
    if n > 0 {
      StepsAdd(phrases, AsWrittenStart(phrases), n - 1, 1);
      AsWrittenNeverCycles(phrases, n - 1);
    }
  }

  /** The evident intent: start on the fully typed first phrase, about to
      delete it. */
  function Start(phrases: seq<string>): (s: TypingState)
    requires WellFormed(phrases)
    ensures Inv(phrases, s)
  {
    TypingState(0, |phrases[0]|, true)
  }

  // ---------------------------------------------------------------------------
  // Cycling

  /** While typing, each tick adds one character. */
  lemma {:induction false} TypeUp(phrases: seq<string>, p: nat, c: nat, k: nat)
    requires WellFormed(phrases) && p < |phrases| && c + k < |phrases[p]|
    ensures Steps(phrases, TypingState(p, c, false), k) == TypingState(p, c + k, false)
    decreases k
  {
    if k > 0 {
      TypeUp(phrases, p, c + 1, k - 1);
    }
  }

  /** While deleting, each tick removes one character. */
  lemma {:induction false} DeleteDown(phrases: seq<string>, p: nat, c: nat, k: nat)
    requires WellFormed(phrases) && p < |phrases| && k < c <= |phrases[p]|
    ensures Steps(phrases, TypingState(p, c, true), k) == TypingState(p, c - k, true)
    decreases k
  {
    if k > 0 {
      DeleteDown(phrases, p, c - 1, k - 1);
    }
  }

  /** Deleting a phrase of `c` characters takes `c` ticks and lands on the
      start of the next phrase. */
  lemma DeleteAll(phrases: seq<string>, p: nat, c: nat)
    requires WellFormed(phrases) && p < |phrases| && 0 < c <= |phrases[p]|
    ensures Steps(phrases, TypingState(p, c, true), c) == TypingState((p + 1) % |phrases|, 0, false)
  {
    DeleteDown(phrases, p, c, c - 1);
    StepsAdd(phrases, TypingState(p, c, true), c - 1, 1);
  }

  /** Typing a phrase out takes its length in ticks and ends about to
      delete it. */
  lemma TypeAll(phrases: seq<string>, p: nat)
    requires WellFormed(phrases) && p < |phrases|
    ensures Steps(phrases, TypingState(p, 0, false), |phrases[p]|) == TypingState(p, |phrases[p]|, true)
  {
    var l := |phrases[p]|;
    TypeUp(phrases, p, 0, l - 1);
    StepsAdd(phrases, TypingState(p, 0, false), l - 1, 1);
  }

  /** From the start of a phrase, twice its length in ticks later the
      animation is at the start of the next phrase (wrapping around). */
  lemma Cycle(phrases: seq<string>, p: nat)
    requires WellFormed(phrases) && p < |phrases|
    ensures Steps(phrases, TypingState(p, 0, false), 2 * |phrases[p]|)
         == TypingState((p + 1) % |phrases|, 0, false)
  {
    var l := |phrases[p]|;
    TypeAll(phrases, p);
    DeleteAll(phrases, p, l);
    StepsAdd(phrases, TypingState(p, 0, false), l, l);
  }

  /** From the corrected start the second phrase is reached after as many
      ticks as the first phrase is long. */
  lemma StartCycles(phrases: seq<string>)
    requires WellFormed(phrases)
    ensures Steps(phrases, Start(phrases), |phrases[0]|) == TypingState(1 % |phrases|, 0, false)
  {
    DeleteAll(phrases, 0, |phrases[0]|);
  }

  /** The banner's own phrase list is usable. */
  lemma PhrasesWellFormed()
    ensures WellFormed(Phrases) && |Phrases| == 12
  {
  }
}
