/** An independent, declarative reading of the parser: a document is a
    prelude followed by blocks, each block one question-start line and the
    lines up to the next one. The lemmas here show that the one-pass parser
    computes exactly this, fails exactly on a malformed key line, and emits
    one question per question-start line with a non-empty prompt. */
module QuizReference {
  import opened Wrappers
  import opened QuizParser

  /** Number of leading kinds before the first question start. */
  function BodyLen(ks: seq<LineKind>): (n: nat)
    ensures n <= |ks|
    ensures n < |ks| ==> ks[n].QuestionLine?
  {
    if ks == [] || ks[0].QuestionLine? then 0 else 1 + BodyLen(ks[1..])
  }

  /** No question starts before `BodyLen(ks)`. */
  lemma {:induction false} BodyLenIsFirst(ks: seq<LineKind>, j: nat)
    requires j < BodyLen(ks)
    ensures !ks[j].QuestionLine?
  {
    if j > 0 {
      BodyLenIsFirst(ks[1..], j - 1);
    }
  }

  /** The option texts among `ks`, in order. */
  function OptionsIn(ks: seq<LineKind>): seq<string>
  {
    if ks == [] then []
    else (if ks[0].OptionLine? then [ks[0].text] else []) + OptionsIn(ks[1..])
  }

  /** The key of the last answer-key line among `ks`, if there is one. */
  function LastKey(ks: seq<LineKind>): Option<seq<string>>
  {
    if ks == [] then None
    else if ks[|ks| - 1].KeyLine? then Some(ks[|ks| - 1].key)
    else LastKey(ks[..|ks| - 1])
  }

  /** `LastKey` finds no key exactly when there is no key line, and
      otherwise the key of a key line with none after it. */
  lemma {:induction false} LastKeySpec(ks: seq<LineKind>)
    ensures LastKey(ks).None? <==> forall j :: 0 <= j < |ks| ==> !ks[j].KeyLine?
    ensures LastKey(ks).Some? ==>
              exists j :: 0 <= j < |ks| && ks[j] == KeyLine(LastKey(ks).value)
                          && forall k :: j < k < |ks| ==> !ks[k].KeyLine?
    decreases |ks|
  {
    if ks == [] {
    } else if ks[|ks| - 1].KeyLine? {
      assert ks[|ks| - 1] == KeyLine(LastKey(ks).value);
    } else {
      var init := ks[..|ks| - 1];
      LastKeySpec(init);
      assert LastKey(ks) == LastKey(init);
      assert forall j :: 0 <= j < |init| ==> init[j] == ks[j];
      if LastKey(init).Some? {
        var j :| 0 <= j < |init| && init[j] == KeyLine(LastKey(init).value)
                 && forall k :: j < k < |init| ==> !init[k].KeyLine?;
        assert ks[j] == KeyLine(LastKey(ks).value);
        assert forall k :: j < k < |ks| ==> !ks[k].KeyLine?;
      }
    }
  }

  /** The questions of a document of line kinds: skip to the next question
      start; its block runs to the one after; a block whose prompt is empty
      yields nothing. */
  function Reference(ks: seq<LineKind>): seq<Question>
    decreases |ks|
  {
    var p := BodyLen(ks);
    if p == |ks| then []
    else
      var t := ks[p].text;
      var rest := ks[p + 1..];
      var b := BodyLen(rest);
      (if t != "" then [Question(t, OptionsIn(rest[..b]), LastKey(rest[..b]))] else [])
      + Reference(rest[b..])
  }

  /** The non-empty prompts of the question-start lines, in document order. */
  function QuestionTexts(ks: seq<LineKind>): (r: seq<string>)
    ensures forall j :: 0 <= j < |r| ==> r[j] != ""
  {
    if ks == [] then []
    else (if ks[0].QuestionLine? && ks[0].text != "" then [ks[0].text] else []) + QuestionTexts(ks[1..])
  }

  /** The prompts of a list of questions. */
  function Prompts(qs: seq<Question>): (r: seq<string>)
    ensures |r| == |qs|
    ensures forall j :: 0 <= j < |qs| ==> r[j] == qs[j].question
  {
    if qs == [] then [] else [qs[0].question] + Prompts(qs[1..])
  }

  /** The key a question ends up with when its block so far had `key` and
      `body` follows: a later key line replaces an earlier one. */
  function KeyAfter(key: Option<seq<string>>, body: seq<LineKind>): Option<seq<string>>
  {
    if LastKey(body).Some? then LastKey(body) else key
  }

  /** The question still open in `acc`, completed with the lines of `rest`
      up to the next question start. */
  function Pending(acc: Acc, rest: seq<LineKind>): seq<Question>
  {
    var body := rest[..BodyLen(rest)];
    if acc.current != "" then [Question(acc.current, acc.options + OptionsIn(body), KeyAfter(acc.key, body))]
    else []
  }

  predicate NoMalformed(ks: seq<LineKind>, i: nat) {
    forall k :: i <= k < |ks| ==> ks[k] != MalformedKey
  }

  /** The last key line of `[x] + ks` is the last one of `ks`, or `x`. */
  lemma {:induction false} LastKeyCons(x: LineKind, ks: seq<LineKind>)
    ensures LastKey([x] + ks) == if LastKey(ks).Some? then LastKey(ks) else if x.KeyLine? then Some(x.key) else None
    decreases |ks|
  {
    if ks != [] {
      var xs := [x] + ks;
      assert xs[..|xs| - 1] == [x] + ks[..|ks| - 1];
      LastKeyCons(x, ks[..|ks| - 1]);
    }
  }

  /** Cutting the body of `ks` after its first line. */
  lemma BodyCons(ks: seq<LineKind>)
    requires ks != [] && !ks[0].QuestionLine?
    ensures BodyLen(ks) == 1 + BodyLen(ks[1..])
    ensures ks[..BodyLen(ks)] == [ks[0]] + ks[1..][..BodyLen(ks[1..])]
    ensures ks[BodyLen(ks)..] == ks[1..][BodyLen(ks[1..])..]
  {
  }

  /** A line inside a block only extends the open question. */
  lemma {:induction false} PendingInBody(acc: Acc, s: seq<LineKind>, i: nat, next: Acc)
    requires s != [] && !s[0].QuestionLine? && Step(acc, s[0], i) == Ok(next)
    ensures next.questions == acc.questions
    ensures Pending(acc, s) == Pending(next, s[1..])
    ensures s[BodyLen(s)..] == s[1..][BodyLen(s[1..])..]
  {
    BodyCons(s);
    var body' := s[1..][..BodyLen(s[1..])];
    LastKeyCons(s[0], body');
    assert ([s[0]] + body')[1..] == body';
    assert OptionsIn([s[0]] + body') == (if s[0].OptionLine? then [s[0].text] else []) + OptionsIn(body');
    match s[0]
    case OptionLine(o) =>
      assert acc.options + ([o] + OptionsIn(body')) == (acc.options + [o]) + OptionsIn(body');
      assert KeyAfter(acc.key, [s[0]] + body') == KeyAfter(acc.key, body');
    case KeyLine(k) =>
      assert acc.options + ([] + OptionsIn(body')) == acc.options + OptionsIn(body');
      assert KeyAfter(acc.key, [s[0]] + body') == KeyAfter(Some(k), body');
    case Blank =>
      assert acc.options + ([] + OptionsIn(body')) == acc.options + OptionsIn(body');
    case Other =>
      assert acc.options + ([] + OptionsIn(body')) == acc.options + OptionsIn(body');
    case QuestionLine(_) =>
      assert false;
    case MalformedKey =>
      assert false;
  }

  /** A question start closes the open question and opens its own block. */
  lemma {:induction false} PendingAtQuestion(acc: Acc, s: seq<LineKind>)
    requires s != [] && s[0].QuestionLine?
    ensures acc.questions + Pending(acc, s) == Flush(acc)
    ensures s[BodyLen(s)..] == s
    ensures Reference(s) == Pending(Acc(Flush(acc), s[0].text, [], None), s[1..])
                            + Reference(s[1..][BodyLen(s[1..])..])
  {
    assert BodyLen(s) == 0;
    assert s[..0] == [] && s[0..] == s;
    assert OptionsIn([]) == [] && LastKey([]) == None;
    assert acc.options + [] == acc.options;
    var rest := s[1..];
    var body := rest[..BodyLen(rest)];
    assert [] + OptionsIn(body) == OptionsIn(body);
  }

  /** The run from line `i` on, with no malformed key line ahead, ends in the
      finished questions of `acc`, then its open question completed with the
      lines up to the next question start, then the reference questions of
      the remaining blocks. */
  lemma {:induction false} RunIsReference(acc: Acc, ks: seq<LineKind>, i: nat)
    requires i <= |ks| && NoMalformed(ks, i)
    ensures Run(acc, ks, i).Ok?
    ensures Flush(Run(acc, ks, i).value)
         == acc.questions + Pending(acc, ks[i..]) + Reference(ks[i..][BodyLen(ks[i..])..])
    decreases |ks| - i
  {
    var s := ks[i..];
    if i == |ks| {
      assert s == [] && s[..0] == [] && s[0..] == [];
      assert OptionsIn([]) == [] && LastKey([]) == None && Reference([]) == [];
      assert acc.options + [] == acc.options;
    } else {
      assert s[0] == ks[i] && s[1..] == ks[i + 1..];
      var next := Step(acc, ks[i], i).value;
      assert Run(acc, ks, i) == Run(next, ks, i + 1);
      RunIsReference(next, ks, i + 1);
      StepKeepsReference(acc, s, i, next);
    }
  }

  /** One step of the run leaves the finished questions, the completed open
      question and the later blocks together unchanged. */
  lemma StepKeepsReference(acc: Acc, s: seq<LineKind>, i: nat, next: Acc)
    requires s != [] && s[0] != MalformedKey && Step(acc, s[0], i) == Ok(next)
    ensures next.questions + Pending(next, s[1..]) + Reference(s[1..][BodyLen(s[1..])..])
         == acc.questions + Pending(acc, s) + Reference(s[BodyLen(s)..])
  {
    if s[0].QuestionLine? {
      StepAtQuestion(acc, s, i, next);
    } else {
      PendingInBody(acc, s, i, next);
    }
  }

  /** `StepKeepsReference` for a question start. */
  lemma StepAtQuestion(acc: Acc, s: seq<LineKind>, i: nat, next: Acc)
    requires s != [] && s[0].QuestionLine? && Step(acc, s[0], i) == Ok(next)
    ensures next.questions + Pending(next, s[1..]) + Reference(s[1..][BodyLen(s[1..])..])
         == acc.questions + Pending(acc, s) + Reference(s[BodyLen(s)..])
  {
    PendingAtQuestion(acc, s);
    assert next == Acc(Flush(acc), s[0].text, [], None);
    var later := Reference(s[1..][BodyLen(s[1..])..]);
    calc {
      acc.questions + Pending(acc, s) + Reference(s[BodyLen(s)..]);
      Flush(acc) + Reference(s[BodyLen(s)..]);
      Flush(acc) + Reference(s);
      Flush(acc) + (Pending(next, s[1..]) + later);
      { AppendAssoc(Flush(acc), Pending(next, s[1..]), later); }
      next.questions + Pending(next, s[1..]) + later;
    }
  }

  lemma AppendAssoc<T>(a: seq<T>, b: seq<T>, c: seq<T>)
    ensures a + (b + c) == a + b + c
  {
  }

  /** The run fails exactly when a malformed key line lies ahead, and then
      with the number of the first one. */
  lemma {:induction false} RunOutcome(acc: Acc, ks: seq<LineKind>, i: nat)
    requires i <= |ks|
    ensures Run(acc, ks, i).Ok? <==> NoMalformed(ks, i)
    ensures Run(acc, ks, i).Err? ==>
              var j := Run(acc, ks, i).error.line;
              i <= j < |ks| && ks[j] == MalformedKey && NoMalformed(ks[..j], i)
    decreases |ks| - i
  {
    if i < |ks| {
      match Step(acc, ks[i], i)
      case Err(e) =>
        assert ks[i] == MalformedKey && e.line == i;
      case Ok(next) =>
        RunOutcome(next, ks, i + 1);
        assert ks[i] != MalformedKey;
        if Run(acc, ks, i).Err? {
          var j := Run(acc, ks, i).error.line;
          assert forall k :: i + 1 <= k < |ks[..j]| ==> ks[..j][k] != MalformedKey;
        }
    }
  }

  /** Lines before the first question start contribute nothing. */
  lemma ReferenceSkipsPrelude(ks: seq<LineKind>)
    ensures Reference(ks) == Reference(ks[BodyLen(ks)..])
  {
    var p := BodyLen(ks);
    if p < |ks| {
      var s := ks[p..];
      assert BodyLen(s) == 0 && s[0] == ks[p] && s[1..] == ks[p + 1..];
    }
  }

  /** A line that is not a question start, put before `ks`, is discarded. */
  lemma ReferenceCons(ks: seq<LineKind>)
    requires ks != [] && !ks[0].QuestionLine?
    ensures Reference(ks) == Reference(ks[1..])
  {
    BodyCons(ks);
    ReferenceSkipsPrelude(ks);
    ReferenceSkipsPrelude(ks[1..]);
  }

  /** Options and answer keys that precede every question start are
      discarded, whatever they are. */
  lemma {:induction false} PreludeIsDiscarded(prelude: seq<LineKind>, ks: seq<LineKind>)
    requires forall j :: 0 <= j < |prelude| ==> !prelude[j].QuestionLine?
    ensures Reference(prelude + ks) == Reference(ks)
    decreases |prelude|
  {
    if prelude == [] {
      assert prelude + ks == ks;
    } else {
      var xs := prelude + ks;
      assert xs[0] == prelude[0] && xs[1..] == prelude[1..] + ks;
      ReferenceCons(xs);
      PreludeIsDiscarded(prelude[1..], ks);
    }
  }

  /** The lines before the first question start hold no question prompt. */
  lemma {:induction false} QuestionTextsSkip(ks: seq<LineKind>, n: nat)
    requires n <= BodyLen(ks)
    ensures QuestionTexts(ks) == QuestionTexts(ks[n..])
    decreases n
  {
    if n > 0 {
      QuestionTextsSkip(ks[1..], n - 1);
      assert ks[1..][n - 1..] == ks[n..];
    }
  }

  lemma {:induction false} PromptsAppend(a: seq<Question>, b: seq<Question>)
    ensures Prompts(a + b) == Prompts(a) + Prompts(b)
  {
  }

  /** The reference emits one question per question start with a non-empty
      prompt, in document order. */
  lemma {:induction false} ReferencePrompts(ks: seq<LineKind>)
    ensures Prompts(Reference(ks)) == QuestionTexts(ks)
    decreases |ks|
  {
    var p := BodyLen(ks);
    QuestionTextsSkip(ks, p);
    if p < |ks| {
      var t := ks[p].text;
      var rest := ks[p + 1..];
      var b := BodyLen(rest);
      var head := if t != "" then [Question(t, OptionsIn(rest[..b]), LastKey(rest[..b]))] else [];
      ReferencePrompts(rest[b..]);
      QuestionTextsSkip(rest, b);
      PromptsAppend(head, Reference(rest[b..]));
      assert ks[p..][1..] == rest;
    }
  }

  /** On lines of kinds `ks`, parsing fails exactly when a malformed key
      line is among them, and throws at the first. */
  lemma ParseKindsFails(ks: seq<LineKind>)
    ensures ParseKinds(ks).Err? <==> !NoMalformed(ks, 0)
    ensures ParseKinds(ks).Err? ==>
              var j := ParseKinds(ks).error.line;
              j < |ks| && ks[j] == MalformedKey && forall k :: 0 <= k < j ==> ks[k] != MalformedKey
  {
    RunOutcome(Init, ks, 0);
    if ParseKinds(ks).Err? {
      var j := ParseKinds(ks).error.line;
      assert forall k :: 0 <= k < j ==> ks[..j][k] == ks[k];
    }
  }

  /** On lines of kinds `ks` without a malformed key line, the parser
      returns the reference questions. */
  lemma ParseKindsIsReference(ks: seq<LineKind>)
    requires NoMalformed(ks, 0)
    ensures ParseKinds(ks) == Ok(Reference(ks))
  {
    RunIsReference(Init, ks, 0);
    ReferenceSkipsPrelude(ks);
    assert ks[0..] == ks;
    assert Pending(Init, ks) == [];
    assert Flush(Run(Init, ks, 0).value) == Reference(ks);
  }

  /** On lines of kinds `ks`, a successful parse yields one question per
      question start with a non-empty prompt, in order. */
  lemma ParseKindsOrder(ks: seq<LineKind>)
    requires ParseKinds(ks).Ok?
    ensures Prompts(ParseKinds(ks).value) == QuestionTexts(ks)
  {
    RunOutcome(Init, ks, 0);
    ParseKindsIsReference(ks);
    ReferencePrompts(ks);
  }

  /** The kinds of the lines of `content`, line by line. */
  lemma KindsOfLines(lines: seq<string>)
    ensures |Kinds(lines)| == |lines|
    ensures forall j :: 0 <= j < |lines| ==> Kinds(lines)[j] == Kind(lines[j])
  {
    forall j | 0 <= j < |lines| {
      KindAt(lines, j);
    }
  }

  /** Parsing throws exactly when some line is a key line the answer-key
      pattern cannot match, and throws at the first such line. */
  lemma ParseFailsOnMalformedKey(content: string)
    ensures ParseQuiz(content).Err? <==>
              exists j :: 0 <= j < |Lines(content)| && Kind(Lines(content)[j]) == MalformedKey
    ensures ParseQuiz(content).Err? ==>
              var j := ParseQuiz(content).error.line;
              j < |Lines(content)| && Kind(Lines(content)[j]) == MalformedKey
              && forall k :: 0 <= k < j ==> Kind(Lines(content)[k]) != MalformedKey
  {
    var lines := Lines(content);
    var ks := Kinds(lines);
    ParseKindsFails(ks);
    KindsOfLines(lines);
    if ParseQuiz(content).Err? {
      var j := ParseQuiz(content).error.line;
      assert Kind(lines[j]) == ks[j] == MalformedKey;
      forall k | 0 <= k < j
        ensures Kind(lines[k]) != MalformedKey
      {
        assert Kind(lines[k]) == ks[k];
      }
    } else {
      forall j | 0 <= j < |lines|
        ensures Kind(lines[j]) != MalformedKey
      {
        assert Kind(lines[j]) == ks[j];
      }
    }
  }

  /** When no line is malformed, the parser returns the reference questions. */
  lemma ParseIsReference(content: string)
    requires NoMalformed(Kinds(Lines(content)), 0)
    ensures ParseQuiz(content) == Ok(Reference(Kinds(Lines(content))))
  {
    ParseKindsIsReference(Kinds(Lines(content)));
  }

  /** A successful parse yields one question per question-start line whose
      prompt is non-empty after removing its number, in document order. */
  lemma ParseQuestionOrder(content: string)
    requires ParseQuiz(content).Ok?
    ensures Prompts(ParseQuiz(content).value) == QuestionTexts(Kinds(Lines(content)))
    ensures forall j :: 0 <= j < |ParseQuiz(content).value| ==> ParseQuiz(content).value[j].question != ""
  {
    ParseKindsOrder(Kinds(Lines(content)));
  }

  /** Every key line among `ks` carries a key of capital-letter tokens. */
  predicate KeysAreLetters(ks: seq<LineKind>) {
    forall j :: 0 <= j < |ks| && ks[j].KeyLine? ==> LetterTokens(ks[j].key)
  }

  /** Every question in `qs` that has a key has a letter key. */
  predicate QuestionKeysAreLetters(qs: seq<Question>) {
    forall q :: q in qs && q.correctAnswer.Some? ==> LetterTokens(q.correctAnswer.value)
  }

  /** The finished questions and the open question's key are letter keys. */
  predicate AccLetters(acc: Acc) {
    QuestionKeysAreLetters(acc.questions) && (acc.key.Some? ==> LetterTokens(acc.key.value))
  }

  /** Closing the open question keeps every key a letter key. */
  lemma FlushLetters(acc: Acc)
    requires AccLetters(acc)
    ensures QuestionKeysAreLetters(Flush(acc))
  {
    if acc.current != "" {
      var q := Question(acc.current, acc.options, acc.key);
      forall x | x in acc.questions + [q] && x.correctAnswer.Some?
        ensures LetterTokens(x.correctAnswer.value)
      {
        if x !in acc.questions {
          assert x == q;
        }
      }
    }
  }

  /** The run from line `i` on keeps every key a letter key when every key
      line ahead carries one. */
  lemma {:induction false} RunLetters(acc: Acc, ks: seq<LineKind>, i: nat)
    requires i <= |ks| && KeysAreLetters(ks) && AccLetters(acc)
    ensures Run(acc, ks, i).Ok? ==> AccLetters(Run(acc, ks, i).value)
    decreases |ks| - i
  {
    if i < |ks| {
      match Step(acc, ks[i], i)
      case Err(_) =>
      case Ok(next) =>
        assert AccLetters(next) by {
          if ks[i].QuestionLine? {
            FlushLetters(acc);
          }
        }
        RunLetters(next, ks, i + 1);
    }
  }

  /** Every answer key in a parsed quiz is a list of capital-letter tokens. */
  lemma ParsedKeysAreLetters(content: string)
    requires ParseQuiz(content).Ok?
    ensures QuestionKeysAreLetters(ParseQuiz(content).value)
  {
    var lines := Lines(content);
    var ks := Kinds(lines);
    KindsOfLines(lines);
    forall j | 0 <= j < |ks| && ks[j].KeyLine?
      ensures LetterTokens(ks[j].key)
    {
      KindKeyIsLetters(lines[j]);
    }
    RunLetters(Init, ks, 0);
    FlushLetters(Run(Init, ks, 0).value);
  }
}
