/** The markdown quiz parser (`parseMarkdownQuiz`): raw text in, an ordered
    list of question records out, in one pass over the lines. */
module QuizParser {
  import opened Wrappers
  import opened Text

  /** One parsed question: its prompt, its options in document order, and the
      answer key (`null` when the question has no key line). */
  datatype Question = Question(question: string, options: seq<string>, correctAnswer: Option<seq<string>>)

  /** The parser's only failure: a key line on which the answer-key pattern
      finds no match, so reading its capture group throws. `line` is the
      index of that line in `content.split('\n')`. */
  datatype ParseError = NoAnswerMatch(line: nat)

  /** What a trimmed line is, in the order the parser tests it. */
  datatype LineKind =
    | Blank
    | QuestionLine(text: string)
    | OptionLine(text: string)
    | KeyLine(key: seq<string>)
    | MalformedKey
    | Other

  /** The text `line.includes` looks for. */
  const KeyMarker: string := "Correct answer:"

  /** The literal part of the pattern `/Correct answer: ([A-Z,]+)/`. */
  const KeyPrefix: string := "Correct answer: "

  /** `[A-Z,]`: the characters the answer-key capture group accepts. */
  predicate IsKeyChar(c: char) {
    InClass(c, KeyChar)
  }

  /** `/^\d+\./` holds of `line`. */
  predicate IsQuestionStart(line: string) {
    var d := Span(line, Digit);
    0 < d < |line| && line[d] == '.'
  }

  // `line.replace(/^\d+\.\s*/, '')`: the prompt with its number removed.
  function QuestionText(line: string): (t: string)
    requires IsQuestionStart(line)
    ensures |t| < |line| && t == line[|line| - |t|..]
    ensures t == [] || !IsWhitespace(t[0])
  {
    TrimStart(line[Span(line, Digit) + 1..])
  }

  // `replace(/^\d+\.\s*/, '')` removes exactly the number, its dot and the
  // whitespace after them: the number is a non-empty run of digits, the dot
  // follows it, and every character between the dot and the prompt is
  // whitespace.
  lemma QuestionTextRemoves(line: string)
    requires IsQuestionStart(line)
    ensures var d := Span(line, Digit);
            0 < d && line[d] == '.' && d < |line| - |QuestionText(line)|
    ensures forall j :: 0 <= j < Span(line, Digit) ==> IsDigit(line[j])
    ensures forall j :: Span(line, Digit) < j < |line| - |QuestionText(line)| ==> IsWhitespace(line[j])
  {
    var d := Span(line, Digit);
    var rest := line[d + 1..];
    SpanSpec(line, Digit);
    TrimStartRemoves(rest);
    forall j | d < j < |line| - |QuestionText(line)|
      ensures IsWhitespace(line[j])
    {
      assert line[j] == rest[j - d - 1];
    }
  }

  // `line.replace(/^-\s*/, '')`: the option with its dash removed.
  function OptionText(line: string): (t: string)
    requires StartsWith(line, "-")
    ensures |t| < |line| && t == line[|line| - |t|..]
    ensures t == [] || !IsWhitespace(t[0])
  {
    TrimStart(line[1..])
  }

  // `replace(/^-\s*/, '')` removes exactly the dash and the whitespace
  // after it.
  lemma OptionTextRemoves(line: string)
    requires StartsWith(line, "-")
    ensures line[0] == '-' && 0 < |line| - |OptionText(line)|
    ensures forall j :: 0 < j < |line| - |OptionText(line)| ==> IsWhitespace(line[j])
  {
    var rest := line[1..];
    assert line[..1][0] == line[0];
    TrimStartRemoves(rest);
    forall j | 0 < j < |line| - |OptionText(line)|
      ensures IsWhitespace(line[j])
    {
      assert line[j] == rest[j - 1];
    }
  }

  /** The answer-key pattern matches at position `i` of `line`. */
  predicate MatchesAt(line: string, i: nat) {
    i + |KeyPrefix| < |line| && line[i..i + |KeyPrefix|] == KeyPrefix && IsKeyChar(line[i + |KeyPrefix|])
  }

  /** The leftmost position at or after `from` where the answer-key pattern
      matches, as a regular-expression search finds it. */
  function FirstMatch(line: string, from: nat): (r: Option<nat>)
    decreases |line| - from
    ensures r.Some? ==> from <= r.value && MatchesAt(line, r.value)
  {
    if |line| <= from + |KeyPrefix| then None
    else if MatchesAt(line, from) then Some(from)
    else FirstMatch(line, from + 1)
  }

  /** The search finds the leftmost match at or after `from`, and finds
      nothing only when there is no match there. */
  lemma {:induction false} FirstMatchIsLeftmost(line: string, from: nat)
    decreases |line| - from
    ensures var r := FirstMatch(line, from);
            r.Some? ==> forall k :: from <= k < r.value ==> !MatchesAt(line, k)
    ensures FirstMatch(line, from).None? ==> forall k :: from <= k ==> !MatchesAt(line, k)
  {
    if |line| <= from + |KeyPrefix| {
    } else if !MatchesAt(line, from) {
      FirstMatchIsLeftmost(line, from + 1);
    }
  }

  /** The capture group `([A-Z,]+)` of a match at `i`: the longest run of
      key characters after the literal prefix. */
  function Capture(line: string, i: nat): (c: string)
    requires MatchesAt(line, i)
    ensures i + |KeyPrefix| + |c| <= |line|
  {
    var rest := line[i + |KeyPrefix|..];
    rest[..Span(rest, KeyChar)]
  }

  /** The capture is non-empty, starts right after the literal prefix, holds
      only key characters, and stops where they stop. */
  lemma CaptureSpec(line: string, i: nat)
    requires MatchesAt(line, i)
    ensures var c := Capture(line, i);
            1 <= |c| && c <= line[i + |KeyPrefix|..]
    ensures forall j :: 0 <= j < |Capture(line, i)| ==> IsKeyChar(Capture(line, i)[j])
    ensures var c := Capture(line, i);
            i + |KeyPrefix| + |c| == |line| || !IsKeyChar(line[i + |KeyPrefix| + |c|])
  {
    SpanSpec(line[i + |KeyPrefix|..], KeyChar);
  }

  /** `parts.map(a => a.trim())`. */
  function TrimAll(parts: seq<string>): (r: seq<string>)
    ensures |r| == |parts|
  {
    if parts == [] then [] else [Trim(parts[0])] + TrimAll(parts[1..])
  }

  /** `TrimAll` trims each token in place. */
  lemma {:induction false} TrimAllSpec(parts: seq<string>)
    ensures forall k :: 0 <= k < |parts| ==> TrimAll(parts)[k] == Trim(parts[k])
  {
    if parts != [] {
      TrimAllSpec(parts[1..]);
    }
  }

  /** `line.match(/Correct answer: ([A-Z,]+)/)[1].split(',').map(a => a.trim())`,
      or `None` when the match is `null`. */
  function AnswerKey(line: string): Option<seq<string>>
  {
    match FirstMatch(line, 0)
    case None => None
    case Some(i) =>
      Some(TrimAll(Split(Capture(line, i), ',')))
  }

  /** The key is missing (the match is `null`) exactly when the pattern
      matches nowhere in the line. */
  lemma AnswerKeyMissing(line: string)
    ensures AnswerKey(line).None? <==> forall k :: !MatchesAt(line, k)
  {
    FirstMatchIsLeftmost(line, 0);
  }

  /** Every token of `key` is a run of capital letters. */
  predicate LetterTokens(key: seq<string>) {
    forall t :: t in key ==> forall c :: c in t ==> 'A' <= c <= 'Z'
  }

  /** The answer key is the capture of the leftmost match cut at its commas:
      joining the tokens with commas gives the capture back, and every token
      is a (possibly empty) run of capital letters, so `trim` never changes
      one. */
  lemma AnswerKeyTokens(line: string)
    requires AnswerKey(line).Some?
    ensures var i := FirstMatch(line, 0).value;
            Join(AnswerKey(line).value, ',') == Capture(line, i)
    ensures LetterTokens(AnswerKey(line).value)
  {
    var cap := Capture(line, FirstMatch(line, 0).value);
    assert AnswerKey(line).value == TrimAll(Split(cap, ','));
    CaptureSpec(line, FirstMatch(line, 0).value);
    LetterPieces(cap);
    JoinSplit(cap, ',');
  }

  /** Cutting a run of key characters at its commas gives runs of capital
      letters, which `trim` leaves alone. */
  lemma LetterPieces(cap: string)
    requires forall j :: 0 <= j < |cap| ==> IsKeyChar(cap[j])
    ensures TrimAll(Split(cap, ',')) == Split(cap, ',')
    ensures LetterTokens(Split(cap, ','))
  {
    var parts := Split(cap, ',');
    KeyRunMembers(cap);
    SplitPieces(cap, ',');
    forall k | 0 <= k < |parts|
      ensures Trim(parts[k]) == parts[k]
      ensures forall c :: c in parts[k] ==> 'A' <= c <= 'Z'
    {
      LetterPiece(parts[k]);
    }
    TrimAllUntouched(parts);
    forall t | t in parts
      ensures forall c :: c in t ==> 'A' <= c <= 'Z'
    {
      var k :| 0 <= k < |parts| && parts[k] == t;
    }
  }

  /** Every character of a run of key characters is a key character. */
  lemma KeyRunMembers(cap: string)
    requires forall j :: 0 <= j < |cap| ==> IsKeyChar(cap[j])
    ensures forall c :: c in cap ==> IsKeyChar(c)
  {
  }

  /** `TrimAll` leaves alone tokens that `trim` leaves alone. */
  lemma {:induction false} TrimAllUntouched(parts: seq<string>)
    requires forall k :: 0 <= k < |parts| ==> Trim(parts[k]) == parts[k]
    ensures TrimAll(parts) == parts
  {
    if parts != [] {
      TrimAllUntouched(parts[1..]);
      assert parts == [parts[0]] + parts[1..];
    }
  }

  /** One comma-free piece of a run of key characters. */
  lemma LetterPiece(piece: string)
    requires forall c :: c in piece ==> IsKeyChar(c) && c != ','
    ensures forall c :: c in piece ==> 'A' <= c <= 'Z'
    ensures Trim(piece) == piece
  {
    if piece != [] {
      assert piece[0] in piece && piece[|piece| - 1] in piece;
      TrimUntouched(piece);
    }
  }

  /** The branch of the parser's loop body a trimmed line takes: blank lines
      first, then `/^\d+\./`, then a leading `-`, then `Correct answer:`. */
  function Classify(line: string): LineKind
  {
    if line == [] then Blank
    else if IsQuestionStart(line) then QuestionLine(QuestionText(line))
    else if StartsWith(line, "-") then OptionLine(OptionText(line))
    else if Includes(line, KeyMarker) then KeyKind(line)
    else Other
  }

  /** A line containing the marker is a key line, or a malformed one when the
      answer-key pattern finds nothing. */
  function KeyKind(line: string): LineKind {
    match AnswerKey(line)
    case None => MalformedKey
    case Some(key) => KeyLine(key)
  }

  /** A line that starts with a number and a dot is a question line. */
  lemma QuestionLineKind(line: string)
    requires line != [] && IsQuestionStart(line)
    ensures Classify(line) == QuestionLine(QuestionText(line))
  {
  }

  /** A key written with a space after the comma keeps only its first
      letter and an empty token: the capture stops at the space, so
      `Correct answer: A, C` yields `["A", ""]`. */
  lemma SpacedKey(line: string, x: char, rest: string)
    requires 'A' <= x <= 'Z' && line == KeyPrefix + [x, ',', ' '] + rest
    ensures AnswerKey(line) == Some([[x], ""])
  {
    var cap: string := [x, ','];
    assert AnswerKey(line) == Some(TrimAll(Split(cap, ','))) by {
      SpacedKeyCapture(line, x, rest);
    }
    assert Split(cap, ',') == [[x], ""] by {
      SplitLetterComma(x);
    }
    assert TrimAll([[x], ""]) == [[x], ""] by {
      TrimLetterAndEmpty(x);
    }
  }

  /** Trimming leaves a one-letter piece and an empty piece as they are. */
  lemma TrimLetterAndEmpty(x: char)
    requires 'A' <= x <= 'Z'
    ensures TrimAll([[x], ""]) == [[x], ""]
  {
    var letter: string := [x];
    var empty: string := [];
    TrimUntouched(letter);
    TrimUntouched(empty);
    TrimAllPair(letter, empty);
  }

  /** Two tokens that trimming leaves alone stay as they are. */
  lemma TrimAllPair(a: string, b: string)
    requires Trim(a) == a && Trim(b) == b
    ensures TrimAll([a, b]) == [a, b]
  {
    var parts := [a, b];
    assert parts[1..] == [b] && parts[1..][1..] == [];
    assert TrimAll(parts[1..]) == [b];
  }

  /** On such a line the pattern matches at the start and captures the
      letter and the comma. */
  lemma SpacedKeyCapture(line: string, x: char, rest: string)
    requires 'A' <= x <= 'Z' && line == KeyPrefix + [x, ',', ' '] + rest
    ensures FirstMatch(line, 0) == Some(0) && Capture(line, 0) == [x, ',']
  {
    assert MatchesAt(line, 0) by {
      assert line[..|KeyPrefix|] == KeyPrefix;
      assert line[|KeyPrefix|] == x;
    }
    var after := line[|KeyPrefix|..];
    assert after == [x, ',', ' '] + rest;
    assert Span(after[1..][1..], KeyChar) == 0 by {
      assert after[1..][1..] == [' '] + rest;
    }
    assert after[0] == x && after[1..][0] == ',';
    assert Span(after, KeyChar) == 2;
    assert after[..2] == [x, ','];
  }

  /** `"A,".split(',')` is `["A", ""]`. */
  lemma SplitLetterComma(x: char)
    requires x != ','
    ensures Split([x, ','], ',') == [[x], ""]
  {
    var cap: string := [x, ','];
    assert cap[1..][1..] == [];
    assert Split(cap[1..][1..], ',') == [""];
    assert cap[1..][0] == ',' && cap[0] == x;
    var rest := Split(cap[1..], ',');
    assert rest == ["", ""];
    assert [x] + rest[0] == [x];
    assert [[x] + rest[0]] + rest[1..] == [[x], ""];
  }

  /** A numbered line with nothing after the number opens a question whose
      prompt is empty. */
  lemma EmptyPromptExample(line: string)
    requires line == "12."
    ensures IsQuestionStart(line) && QuestionText(line) == ""
  {
    assert Span(line[2..], Digit) == 0;
    assert line[1..][1..] == line[2..];
    assert Span(line, Digit) == 2;
  }

  /** `Correct answer:` followed by at most one character (a space, say) has
      no answer key: there is no room for the capture. */
  lemma BareMarker(tail: string)
    requires |tail| <= 1
    ensures AnswerKey(KeyMarker + tail) == None
  {
    assert |KeyMarker + tail| <= |KeyPrefix|;
  }

  /** The prefix followed by a character outside `[A-Z,]` (a lower-case
      letter, say) has no answer key. */
  lemma NoKeyCharAfterPrefix(c: char)
    requires !IsKeyChar(c)
    ensures AnswerKey(KeyPrefix + [c]) == None
  {
    var line := KeyPrefix + [c];
    forall k: nat
      ensures !MatchesAt(line, k)
    {
      if k == 0 {
        assert line[|KeyPrefix|] == c;
      }
    }
    AnswerKeyMissing(line);
  }

  /** The kind of a raw line, after `trim`. */
  function Kind(line: string): LineKind {
    Classify(Trim(line))
  }

  /** A raw line is skipped as blank exactly when it is all whitespace. */
  lemma BlankKind(line: string)
    ensures Kind(line) == Blank <==> forall j :: 0 <= j < |line| ==> IsWhitespace(line[j])
  {
    assert Kind(line) == Blank <==> Trim(line) == [];
    TrimEmpty(line);
  }

  /** The number test comes first: a line that starts with a number and a
      dot once trimmed opens a question, even when it contains
      `Correct answer:` (so `1. Correct answer: b` does not throw). */
  lemma QuestionStartWins(line: string)
    requires IsQuestionStart(Trim(line))
    ensures Kind(line) == QuestionLine(QuestionText(Trim(line)))
  {
    QuestionLineKind(Trim(line));
  }

  /** A trimmed line starting with `-` is an option, even when it contains
      `Correct answer:` (so `- Correct answer: b` does not throw). */
  lemma DashWins(line: string)
    requires StartsWith(Trim(line), "-")
    ensures Kind(line) == OptionLine(OptionText(Trim(line)))
  {
    var t := Trim(line);
    assert t[0] == '-' by {
      assert t[..1][0] == t[0];
    }
    assert Span(t, Digit) == 0;
    assert !IsQuestionStart(t);
    assert Kind(line) == Classify(t);
  }

  /** The parser throws on a raw line exactly when, once trimmed, it is not
      blank, not a question start, not an option, contains `Correct answer:`,
      and the answer-key pattern matches nowhere in it. */
  lemma MalformedKind(line: string)
    ensures Kind(line) == MalformedKey <==>
              var t := Trim(line);
              && t != [] && !IsQuestionStart(t) && !StartsWith(t, "-") && Includes(t, KeyMarker)
              && forall k :: !MatchesAt(t, k)
  {
    var t := Trim(line);
    AnswerKeyMissing(t);
    assert Kind(line) == Classify(t);
    if t != [] && !IsQuestionStart(t) && !StartsWith(t, "-") && Includes(t, KeyMarker) {
      assert Classify(t) == KeyKind(t);
    }
  }

  /** A line that starts with `Correct answer:` once trimmed is a key line,
      malformed when the answer-key pattern finds nothing in it. */
  lemma KeyMarkerLine(line: string)
    requires StartsWith(Trim(line), KeyMarker)
    ensures Kind(line) == if AnswerKey(Trim(line)).None? then MalformedKey else KeyLine(AnswerKey(Trim(line)).value)
  {
    var t := Trim(line);
    assert t[0] == KeyMarker[0];
    assert Span(t, Digit) == 0;
    assert t != [] && !IsQuestionStart(t);
    assert !StartsWith(t, "-") by {
      assert t[..1][0] != '-';
    }
    assert Includes(t, KeyMarker);
    assert Kind(line) == Classify(t) == KeyKind(t);
  }

  /** The key a key line yields is the answer key of the trimmed line, so
      its tokens are capital letters. */
  lemma KindKeyIsLetters(line: string)
    requires Kind(line).KeyLine?
    ensures AnswerKey(Trim(line)) == Some(Kind(line).key)
    ensures LetterTokens(Kind(line).key)
  {
    var t := Trim(line);
    assert Kind(line) == Classify(t) == KeyKind(t);
    AnswerKeyTokens(t);
  }

  /** `content.split('\n')`. */
  function Lines(content: string): seq<string> {
    Split(content, '\n')
  }

  /** The parser's loop state: the finished questions and the three
      accumulators of the question under construction (`currentQuestion`,
      whose `null` is modelled as the equally falsy "", `currentOptions`,
      `currentCorrectAnswer`). */
  datatype Acc = Acc(questions: seq<Question>, current: string, options: seq<string>, key: Option<seq<string>>)

  const Init: Acc := Acc([], "", [], None)

  /** The "save previous question if exists" step: the open question is
      emitted only when its text is truthy, that is non-empty. */
  function Flush(acc: Acc): seq<Question>
  {
    if acc.current != "" then acc.questions + [Question(acc.current, acc.options, acc.key)] else acc.questions
  }

  /** Flushing keeps the finished questions as a prefix and adds at most one
      question, the open one, and only when its prompt is non-empty; so it
      never emits an empty prompt. */
  lemma FlushKeepsFinished(acc: Acc)
    ensures acc.questions <= Flush(acc) && |Flush(acc)| <= |acc.questions| + 1
    ensures |Flush(acc)| == |acc.questions| + 1 <==> acc.current != ""
    ensures forall q :: q in Flush(acc)[|acc.questions|..] ==>
              q == Question(acc.current, acc.options, acc.key) && q.question != ""
  {
  }

  /** One iteration of the loop on line number `i` of kind `kind`. */
  function Step(acc: Acc, kind: LineKind, i: nat): Result<Acc, ParseError>
  {
    match kind
    case Blank => Ok(acc)
    case QuestionLine(t) => Ok(Acc(Flush(acc), t, [], None))
    case OptionLine(o) => Ok(acc.(options := acc.options + [o]))
    case KeyLine(k) => Ok(acc.(key := Some(k)))
    case MalformedKey => Err(NoAnswerMatch(i))
    case Other => Ok(acc)
  }

  /** The kinds of all lines, in order. */
  function Kinds(lines: seq<string>): (ks: seq<LineKind>)
    ensures |ks| == |lines|
  {
    if lines == [] then [] else [Kind(lines[0])] + Kinds(lines[1..])
  }

  /** The kind at position `i` is the kind of line `i`. */
  lemma {:induction false} KindAt(lines: seq<string>, i: nat)
    requires i < |lines|
    ensures Kinds(lines)[i] == Kind(lines[i])
  {
    assert Kinds(lines) == [Kind(lines[0])] + Kinds(lines[1..]);
    if i > 0 {
      KindAt(lines[1..], i - 1);
      assert lines[1..][i - 1] == lines[i];
    }
  }

  /** The loop run on the lines from number `i` on, from state `acc`, given
      the kinds of the lines. */
  function Run(acc: Acc, kinds: seq<LineKind>, i: nat): Result<Acc, ParseError>
    requires i <= |kinds|
    decreases |kinds| - i
  {
    if i == |kinds| then Ok(acc)
    else
      match Step(acc, kinds[i], i)
      case Err(e) => Err(e)
      case Ok(next) => Run(next, kinds, i + 1)
  }

  /** The parser's result on lines of the given kinds: the run, then the
      last open question added. */
  function ParseKinds(ks: seq<LineKind>): Result<seq<Question>, ParseError>
  {
    match Run(Init, ks, 0)
    case Err(e) => Err(e)
    case Ok(acc) => Ok(Flush(acc))
  }

  /** What `parseMarkdownQuiz(content)` returns, or the error it throws. */
  function ParseQuiz(content: string): Result<seq<Question>, ParseError>
  {
    ParseKinds(Kinds(Lines(content)))
  }

  /** The body of the parser's loop for the trimmed line `line`, number `i`:
      blank lines are skipped, a question start flushes the open question and
      opens a new one, an option line is appended, a key line replaces the
      key, and a key line the pattern cannot match throws. */
  method ReadLine(acc: Acc, line: string, i: nat) returns (r: Result<Acc, ParseError>)
    ensures r == Step(acc, Classify(line), i)
  {
    var questions, currentQuestion, currentOptions, currentCorrectAnswer :=
      acc.questions, acc.current, acc.options, acc.key;
    if line == [] {
      // blank line: skipped
      assert Classify(line) == Blank;
      r := Ok(acc);
    } else if IsQuestionStart(line) {
      if currentQuestion != "" {
        questions := questions + [Question(currentQuestion, currentOptions, currentCorrectAnswer)];
      }
      assert Classify(line) == QuestionLine(QuestionText(line)) by {
        QuestionLineKind(line);
      }
      currentQuestion := QuestionText(line);
      currentOptions := [];
      currentCorrectAnswer := None;
      r := Ok(Acc(questions, currentQuestion, currentOptions, currentCorrectAnswer));
    } else if StartsWith(line, "-") {
      currentOptions := currentOptions + [OptionText(line)];
      assert Classify(line) == OptionLine(OptionText(line));
      r := Ok(acc.(options := currentOptions));
    } else if Includes(line, KeyMarker) {
      assert Classify(line) == KeyKind(line);
      r := ReadKeyLine(acc, line, i);
    } else {
      assert Classify(line) == Other;
      r := Ok(acc);
    }
  }

  /** The key-line branch of the loop body: the answer key replaces the
      current one, or the parser throws at this line when the pattern does not
      match. */
  method ReadKeyLine(acc: Acc, line: string, i: nat) returns (r: Result<Acc, ParseError>)
    ensures r == Step(acc, KeyKind(line), i)
  {
    var answer := AnswerKey(line);
    if answer.None? {
      r := Err(NoAnswerMatch(i));
    } else {
      r := Ok(acc.(key := answer));
    }
  }

  /** `parseMarkdownQuiz`: the loop over the lines with its accumulators. */
  method ParseMarkdownQuiz(content: string) returns (r: Result<seq<Question>, ParseError>)
    ensures r == ParseQuiz(content)
  {
    var lines := Lines(content);
    ghost var kinds := Kinds(lines);
    var acc := Init;

    var i := 0;
    while i < |lines|
      invariant 0 <= i <= |lines|
      invariant Run(acc, kinds, i) == Run(Init, kinds, 0)
    {
      KindAt(lines, i);
      var next := ReadLine(acc, Trim(lines[i]), i);
      match next
      case Err(e) =>
        return Err(e);
      case Ok(a) =>
        acc := a;
      i := i + 1;
    }

    // add the last question
    return Ok(Flush(acc));
  }
}
