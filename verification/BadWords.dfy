/**
  The bad-word logits processor (logits_process.py): every token that would complete a
  forbidden token sequence gets logit minus infinity.
 */
module BadWords {
  import opened Options

  datatype Logit = Value(v: real) | MinusInf

  /** OutOfVocabulary is the ValueError of the first call, NoLastToken the IndexError on an
      empty word. */
  datatype Result = Logits(logits: seq<Logit>) | OutOfVocabulary | NoLastToken

  type Word = seq<int>

  function Add(a: Logit, b: Logit): Logit {
    if a.MinusInf? || b.MinusInf? then MinusInf else Value(a.v + b.v)
  }

  function Zeros(n: nat): (r: seq<Logit>)
    ensures |r| == n && forall k :: 0 <= k < n ==> r[k] == Value(0.0)
  {
    seq(n, _ => Value(0.0))
  }

  /** Appending t to the tokens completes word w. */
  ghost predicate Completes(w: Word, past: seq<int>, t: int) {
    w != [] && w[|w| - 1] == t && |w| - 1 <= |past| && past[|past| - (|w| - 1)..] == w[..|w| - 1]
  }

  ghost predicate CompletesAny(words: seq<Word>, past: seq<int>, t: int) {
    exists k :: 0 <= k < |words| && Completes(words[k], past, t)
  }

  /** The logits with every token that would complete a bad word at minus infinity. */
  ghost function Processed(words: seq<Word>, past: seq<int>, logits: seq<Logit>): (r: seq<Logit>)
    ensures |r| == |logits|
    ensures forall t :: 0 <= t < |r| ==> r[t] == if CompletesAny(words, past, t) then MinusInf else logits[t]
  {
    seq(|logits|, t requires 0 <= t < |logits| => if CompletesAny(words, past, t) then MinusInf else logits[t])
  }

  ghost predicate InVocabulary(words: seq<Word>, size: nat) {
    forall k, j :: 0 <= k < |words| && 0 <= j < |words[k]| ==> 0 <= words[k][j] < size
  }

  ghost predicate NonEmpty(words: seq<Word>) { forall k :: 0 <= k < |words| ==> words[k] != [] }

  /** The one-token words among the first n forbid t. */
  ghost predicate Single(words: seq<Word>, n: nat, t: int)
    requires n <= |words|
  {
    exists k :: 0 <= k < n && |words[k]| == 1 && words[k][0] == t
  }

  /** The longer words among the first n forbid t after past. */
  ghost predicate Longer(words: seq<Word>, n: nat, past: seq<int>, t: int)
    requires n <= |words|
  {
    exists k :: 0 <= k < n && |words[k]| > 1 && Completes(words[k], past, t)
  }

  /** Minus infinity exactly at the tokens that the first n one-token words forbid. */
  ghost predicate MarksSingle(bias: seq<Logit>, words: seq<Word>, n: nat)
    requires n <= |words|
  {
    forall t :: 0 <= t < |bias| ==> bias[t] == if Single(words, n, t) then MinusInf else Value(0.0)
  }

  /** The same for the longer words. */
  ghost predicate MarksLonger(bias: seq<Logit>, words: seq<Word>, n: nat, past: seq<int>)
    requires n <= |words|
  {
    forall t :: 0 <= t < |bias| ==> bias[t] == if Longer(words, n, past, t) then MinusInf else Value(0.0)
  }

  lemma SplitWords(words: seq<Word>, past: seq<int>, t: int)
    ensures CompletesAny(words, past, t) <==> Single(words, |words|, t) || Longer(words, |words|, past, t)
  {
    if k :| 0 <= k < |words| && |words[k]| == 1 && words[k][0] == t {
      assert past[|past|..] == [] == words[k][..0];
      assert Completes(words[k], past, t);
    }
  }

  class Processor {
    const words: seq<Word>
    /** Built by the first call. */
    var wordBias: Option<seq<Logit>>

    /** Once built, the bias forbids exactly the one-token words. */
    ghost predicate Valid()
      reads this
    {
      wordBias.Some? ==>
        InVocabulary(words, |wordBias.value|) && MarksSingle(wordBias.value, words, |words|)
    }

    constructor (words: seq<Word>)
      ensures Valid() && this.words == words && wordBias == None
    {
      this.words, wordBias := words, None;
    }

    method CheckTokenIdsBounds(size: nat) returns (ok: bool)
      ensures ok <==> InVocabulary(words, size)
    {
      for k := 0 to |words|
        invariant forall i, j :: 0 <= i < k && 0 <= j < |words[i]| ==> 0 <= words[i][j] < size
      {
        for j := 0 to |words[k]|
          invariant forall i :: 0 <= i < j ==> 0 <= words[k][i] < size
        {
          if words[k][j] < 0 || words[k][j] >= size {
            return false;
          }
        }
      }
      return true;
    }

    method InitWordBias(size: nat) returns (ok: bool)
      requires wordBias == None
      modifies this`wordBias
      ensures Valid() && (ok <==> InVocabulary(words, size))
      ensures if ok then wordBias.Some? && |wordBias.value| == size else wordBias == None
    {
      ok := CheckTokenIdsBounds(size);
      if !ok {
        return;
      }
      var bias := Zeros(size);
      for k := 0 to |words|
        invariant |bias| == size && MarksSingle(bias, words, k)
      {
        if |words[k]| == 1 {
          bias := bias[words[k][0] := MinusInf];
        }
      }
      wordBias := Some(bias);
    }

    /** One step.  A logit becomes minus infinity exactly when its token would complete a
        bad word; every other logit is left as it was. */
    method Call(past: seq<int>, logits: seq<Logit>) returns (r: Result)
      requires Valid() && (wordBias.Some? ==> |logits| == |wordBias.value|)
      modifies this`wordBias
      ensures Valid() && (wordBias.Some? ==> |logits| == |wordBias.value|)
      ensures r.OutOfVocabulary? <==> !InVocabulary(words, |logits|)
      ensures r.NoLastToken? <==> InVocabulary(words, |logits|) && !NonEmpty(words)
      ensures r.Logits? ==> wordBias.Some? && r.logits == Processed(words, past, logits)
    {
      hide Completes, CompletesAny, Single, InVocabulary, Longer, MarksLonger, NonEmpty;
      if wordBias.None? {
        var ok := InitWordBias(|logits|);
        if !ok {
          return OutOfVocabulary;
        }
      }
      var last := Zeros(|logits|);
      var built := wordBias.value;
      NoneYet(words, past, |logits|);
      for k := 0 to |words|
        invariant wordBias == Some(built)
        invariant NonEmpty(words[..k]) && |last| == |logits| && MarksLonger(last, words, k, past)
      {
        var w := words[k];
        NextNonEmpty(words, k);
        if w == [] {
          return NoLastToken;
        }
        if |w| == 1 || |w| > |past| + 1 {
          NextSkipped(words, k, past, last);
          continue;
        }
        var n := |w| - 1;
        LastId(words, k, |logits|);
        NextMarked(words, k, past, last);
        var bias := if past[|past| - n..] == w[..n] then MinusInf else Value(0.0);
        last := last[w[n] := Add(last[w[n]], bias)];
      }
      assert words[..|words|] == words;
      Masked(words, past, logits, built, last);
      r := Logits(seq(|logits|, t requires 0 <= t < |logits| && |last| == |built| == |logits| =>
                        Add(Add(logits[t], built[t]), last[t])));
    }
  }

  lemma Masked(words: seq<Word>, past: seq<int>, logits: seq<Logit>, built: seq<Logit>, last: seq<Logit>)
    requires MarksSingle(built, words, |words|) && MarksLonger(last, words, |words|, past) &&
             |built| == |last| == |logits|
    ensures forall t :: 0 <= t < |logits| ==>
              Add(Add(logits[t], built[t]), last[t]) == if CompletesAny(words, past, t) then MinusInf else logits[t]
  {
    hide CompletesAny, Single, Longer;
    forall t | 0 <= t < |logits|
      ensures Add(Add(logits[t], built[t]), last[t]) == if CompletesAny(words, past, t) then MinusInf else logits[t]
    {
      SplitWords(words, past, t);
    }
  }

  lemma NoneYet(words: seq<Word>, past: seq<int>, size: nat)
    ensures MarksLonger(Zeros(size), words, 0, past) && NonEmpty(words[..0])
  {
  }

  lemma LastId(words: seq<Word>, k: nat, size: nat)
    requires k < |words| && InVocabulary(words, size) && words[k] != []
    ensures 0 <= words[k][|words[k]| - 1] < size
  {
  }

  lemma NextNonEmpty(words: seq<Word>, k: nat)
    requires k < |words| && NonEmpty(words[..k])
    ensures NonEmpty(words[..k + 1]) <==> words[k] != []
    ensures words[k] == [] ==> !NonEmpty(words)
  {
    assert words[..k + 1] == words[..k] + [words[k]];
  }

  lemma LongerNext(words: seq<Word>, k: nat, past: seq<int>, t: int)
    requires k < |words|
    ensures Longer(words, k + 1, past, t) <==>
              Longer(words, k, past, t) || (|words[k]| > 1 && Completes(words[k], past, t))
  {
    hide Completes;
  }

  /** A word of one token, or longer than the text, marks nothing more. */
  lemma NextSkipped(words: seq<Word>, k: nat, past: seq<int>, last: seq<Logit>)
    requires k < |words| && MarksLonger(last, words, k, past)
    requires |words[k]| <= 1 || |words[k]| > |past| + 1
    ensures MarksLonger(last, words, k + 1, past)
  {
    hide Longer;
    forall t ensures Longer(words, k + 1, past, t) <==> Longer(words, k, past, t) { LongerNext(words, k, past, t); }
  }

  /** A word whose prefix ends the text marks its last token. */
  lemma NextMarked(words: seq<Word>, k: nat, past: seq<int>, last: seq<Logit>)
    requires k < |words| && MarksLonger(last, words, k, past)
    requires 1 < |words[k]| <= |past| + 1 && 0 <= words[k][|words[k]| - 1] < |last|
    ensures
      var n := |words[k]| - 1;
      var bias := if past[|past| - n..] == words[k][..n] then MinusInf else Value(0.0);
      MarksLonger(last[words[k][n] := Add(last[words[k][n]], bias)], words, k + 1, past)
  {
    hide Longer, Completes, MarksLonger;
    var w, n := words[k], |words[k]| - 1;
    var hit := past[|past| - n..] == w[..n];
    forall t ensures Longer(words, k + 1, past, t) <==> Longer(words, k, past, t) || (t == w[n] && hit) {
      LongerNext(words, k, past, t);
      CompletesIff(w, past, t);
    }
    MarkToken(words, k, past, last, w[n], hit);
  }

  lemma MarkToken(words: seq<Word>, k: nat, past: seq<int>, last: seq<Logit>, x: int, hit: bool)
    requires k < |words| && MarksLonger(last, words, k, past) && 0 <= x < |last|
    requires forall t :: Longer(words, k + 1, past, t) <==> Longer(words, k, past, t) || (t == x && hit)
    ensures MarksLonger(last[x := Add(last[x], if hit then MinusInf else Value(0.0))], words, k + 1, past)
  {
    hide Longer;
  }

  lemma CompletesIff(w: Word, past: seq<int>, t: int)
    requires 1 < |w| <= |past| + 1
    ensures Completes(w, past, t) <==> t == w[|w| - 1] && past[|past| - (|w| - 1)..] == w[..|w| - 1]
  {
  }

  // ----- Whole runs -----

  ghost predicate OccursAt(w: Word, s: seq<int>, i: nat) { i + |w| <= |s| && s[i..i + |w|] == w }

  ghost predicate Free(words: seq<Word>, s: seq<int>) {
    forall k, i: nat :: 0 <= k < |words| ==> !OccursAt(words[k], s, i)
  }

  /** A word that first occurs with the last token was completed by it. */
  lemma LastTokenCompletes(w: Word, s: seq<int>, t: int, i: nat)
    requires w != [] && OccursAt(w, s + [t], i) && !OccursAt(w, s, i)
    ensures Completes(w, s, t)
  {
    var all := s + [t];
    assert w == all[i..];
    assert w[|w| - 1] == t && w[..|w| - 1] == s[i..];
  }

  /** Completing a word is having it at the end of the tokens. */
  lemma CompletesAtEnd(w: Word, s: seq<int>, t: int)
    requires w != []
    ensures Completes(w, s, t) <==> |w| <= |s| + 1 && OccursAt(w, s + [t], |s| + 1 - |w|)
  {
    if |w| <= |s| + 1 {
      var (all, i) := (s + [t], |s| + 1 - |w|);
      assert all[i..i + |w|] == s[i..] + [t];
      assert w == w[..|w| - 1] + [w[|w| - 1]];
    }
  }

  lemma StaysFree(words: seq<Word>, s: seq<int>, t: int)
    requires NonEmpty(words) && Free(words, s) && !CompletesAny(words, s, t)
    ensures Free(words, s + [t])
  {
    hide Completes;
    forall k, i: nat | 0 <= k < |words| ensures !OccursAt(words[k], s + [t], i) {
      if OccursAt(words[k], s + [t], i) {
        LastTokenCompletes(words[k], s, t, i);
      }
    }
  }

  /** The run that sampling makes: at each step the token sampled from the processed logits
      is appended, until one is out of range or at minus infinity. */
  ghost function Sampled(words: seq<Word>, tokens: seq<int>, steps: seq<seq<Logit>>, sample: (nat, seq<Logit>) -> nat,
                         k: nat): seq<int>
    requires k <= |steps|
    decreases |steps| - k
  {
    if k == |steps| then tokens
    else
      var logits := Processed(words, tokens, steps[k]);
      var t := sample(k, logits);
      if t >= |logits| || logits[t].MinusInf? then tokens else Sampled(words, tokens + [t], steps, sample, k + 1)
  }

  /** No run that samples only above minus infinity ever contains a bad word. */
  lemma {:induction false} SampledStaysFree(words: seq<Word>, tokens: seq<int>, steps: seq<seq<Logit>>,
                                            sample: (nat, seq<Logit>) -> nat, k: nat)
    requires k <= |steps| && NonEmpty(words) && Free(words, tokens)
    ensures Free(words, Sampled(words, tokens, steps, sample, k)) && tokens <= Sampled(words, tokens, steps, sample, k)
    decreases |steps| - k
  {
    hide Free, CompletesAny;
    if k < |steps| {
      var logits := Processed(words, tokens, steps[k]);
      var t := sample(k, logits);
      if t < |logits| && logits[t].Value? {
        StaysFree(words, tokens, t);
        SampledStaysFree(words, tokens + [t], steps, sample, k + 1);
      }
    }
  }

  /** Any run: whatever the model's logits and whatever token is sampled, the tokens are
      those sampled from the processed logits, and no bad word ever appears.  The run stops
      at the first call if a word is empty or outside the vocabulary. */
  method Generate(p: Processor, start: seq<int>, steps: seq<seq<Logit>>, sample: (nat, seq<Logit>) -> nat,
                  ghost size: nat)
    returns (tokens: seq<int>)
    requires p.Valid() && (p.wordBias.Some? ==> |p.wordBias.value| == size) &&
             (forall k :: 0 <= k < |steps| ==> |steps[k]| == size)
    modifies p`wordBias
    ensures tokens == if InVocabulary(p.words, size) && NonEmpty(p.words)
                      then Sampled(p.words, start, steps, sample, 0) else start
    ensures Free(p.words, start) ==> Free(p.words, tokens)
  {
    hide Free, CompletesAny, InVocabulary;
    tokens := start;
    ghost var all := Sampled(p.words, start, steps, sample, 0);
    if InVocabulary(p.words, size) && NonEmpty(p.words) && Free(p.words, start) {
      SampledStaysFree(p.words, start, steps, sample, 0);
    }
    for k := 0 to |steps|
      invariant p.Valid() && (p.wordBias.Some? ==> |p.wordBias.value| == size)
      invariant k > 0 ==> InVocabulary(p.words, size) && NonEmpty(p.words)
      invariant k == 0 ==> tokens == start
      invariant Sampled(p.words, tokens, steps, sample, k) == all
    {
      var r := p.Call(tokens, steps[k]);
      if !r.Logits? {
        return;
      }
      var t := sample(k, r.logits);
      if t >= |r.logits| || r.logits[t].MinusInf? {
        return;
      }
      tokens := tokens + [t];
    }
    if steps == [] {
      assert all == start;
    }
  }
}
