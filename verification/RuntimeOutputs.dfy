/**
 * pkg/models references to the outputs of earlier tasks: $steps.<step>.<task>.outputs.<name>, and
 * the step-level $steps.<step>.outputs.<name>. A step name may itself contain dots.
 */
module RuntimeOutputs {
  import opened Text

  const PREFIX := "$steps."
  const MARKER := ".outputs."

  datatype Ref = Ref(step: string, task: string, output: string) {
    function Key(): string {
      TrimSpace(step) + "/" + TrimSpace(task) + "/" + TrimSpace(output)
    }
  }

  datatype Reason = BadForm | NoTask | NoStep | EmptyName | InvalidName

  datatype Reading = NotReference | Malformed(reason: Reason) | Read(ref: Ref)

  datatype Candidates = NoReference | Broken(reason: Reason) | Possible(refs: seq<Ref>)

  /** strings.LastIndex: the last place `sub` stands at, or -1. */
  function LastIndex(s: string, sub: string): (n: int)
    requires sub != ""
    ensures n == -1 || 0 <= n <= |s| - |sub|
  {
    LastUpTo(s, sub, |s|)
  }

  predicate StandsAt(s: string, sub: string, n: int) {
    0 <= n && n + |sub| <= |s| && s[n..n + |sub|] == sub
  }

  function LastUpTo(s: string, sub: string, bound: int): (n: int)
    requires sub != "" && -1 <= bound
    ensures n == -1 || 0 <= n <= |s| - |sub|
    decreases bound + 1
  {
    if bound < 0 || StandsAt(s, sub, bound) then bound else LastUpTo(s, sub, bound - 1)
  }

  lemma {:induction false} LastUpToIs(s: string, sub: string, bound: int)
    requires sub != "" && -1 <= bound
    ensures var n := LastUpTo(s, sub, bound);
            (n >= 0 ==> StandsAt(s, sub, n)) && forall k :: n < k <= bound ==> !StandsAt(s, sub, k)
    decreases bound + 1
  {
    if bound >= 0 && !StandsAt(s, sub, bound) {
      LastUpToIs(s, sub, bound - 1);
    }
  }

  /** The last place, and there is no later one. */
  lemma LastIndexIs(s: string, sub: string)
    requires sub != ""
    ensures var n := LastIndex(s, sub);
            (n >= 0 ==> StandsAt(s, sub, n)) && forall k :: k > n ==> !StandsAt(s, sub, k)
  {
    LastUpToIs(s, sub, |s|);
  }

  predicate IsNameStart(c: char) {
    'A' <= c <= 'Z' || 'a' <= c <= 'z' || c == '_'
  }

  predicate IsNameChar(c: char) {
    IsNameStart(c) || '0' <= c <= '9'
  }

  predicate IsOutputName(name: string) {
    name != "" && IsNameStart(name[0]) && forall i :: 0 <= i < |name| ==> IsNameChar(name[i])
  }

  /** Where the marker stands in a body, if something comes before it and after it. */
  predicate HasForm(body: string) {
    var at := LastIndex(body, MARKER);
    0 < at && at + |MARKER| < |body|
  }

  function Producer(body: string): string requires HasForm(body) {
    body[..LastIndex(body, MARKER)]
  }

  function Output(body: string): string requires HasForm(body) {
    body[LastIndex(body, MARKER) + |MARKER|..]
  }

  function Parse(raw: string): Reading {
    var value := TrimSpace(raw);
    if !(PREFIX <= value) then NotReference else ParseBody(value[|PREFIX|..])
  }

  function ParseBody(body: string): Reading {
    if !HasForm(body) then Malformed(BadForm) else ReadProducer(Producer(body), TrimSpace(Output(body)))
  }

  function ReadProducer(producer: string, output: string): Reading {
    var dot := LastIndex(producer, ".");
    if dot == |producer| - 1 then Malformed(NoTask)
    else if dot <= 0 then
      var step := TrimSpace(producer);
      if step == "" then Malformed(NoStep) else Checked(Ref(step, step, output))
    else Checked(Ref(TrimSpace(producer[..dot]), TrimSpace(producer[dot + 1..]), output))
  }

  function Checked(ref: Ref): Reading {
    if ref.step == "" || ref.task == "" || ref.output == "" then Malformed(EmptyName)
    else if !IsOutputName(TrimSpace(ref.output)) then Malformed(InvalidName)
    else Read(ref)
  }

  /** The reading as written, and the whole producer read as a step when that is another reading. */
  function ParseCandidates(raw: string): Candidates {
    match Parse(raw)
    case NotReference => NoReference
    case Malformed(reason) => Broken(reason)
    case Read(ref) =>
      var body := TrimPrefix(TrimSpace(raw), PREFIX);
      if !HasForm(body) then Possible([ref])
      else
        var producer, output := TrimSpace(Producer(body)), TrimSpace(Output(body));
        if producer == "" || output == "" || !IsOutputName(TrimSpace(output)) then Possible([ref])
        else
          var stepLevel := Ref(producer, producer, output);
          if stepLevel.Key() != ref.Key() then Possible([ref, stepLevel]) else Possible([ref])
  }

  function Print(step: string, task: string, output: string): string {
    PREFIX + (step + "." + task + MARKER + output)
  }

  function PrintStepLevel(step: string, output: string): string {
    PREFIX + (step + MARKER + output)
  }

  // ----- Where the marker and the last dot stand.

  lemma LastOfSlice(s: string, i: nat, j: nat)
    requires i < j <= |s|
    ensures s[i..j][j - i - 1] == s[j - 1]
  {
  }

  lemma MarkerAt(producer: string, output: string)
    requires '.' !in output
    ensures LastIndex(producer + MARKER + output, MARKER) == |producer|
  {
    var body := producer + MARKER + output;
    LastIndexIs(body, MARKER);
    assert StandsAt(body, MARKER, |producer|);
    forall k | k > |producer| && k + |MARKER| <= |body| ensures !StandsAt(body, MARKER, k) {
      LastOfSlice(body, k, k + |MARKER|);
      assert body[k + 8] == output[k + 8 - |producer| - |MARKER|];
    }
  }

  lemma DotAt(step: string, task: string)
    requires '.' !in task
    ensures LastIndex(step + "." + task, ".") == |step|
  {
    var producer := step + "." + task;
    LastIndexIs(producer, ".");
    assert StandsAt(producer, ".", |step|);
    forall k | |step| < k < |producer| ensures !StandsAt(producer, ".", k) {
      LastOfSlice(producer, k, k + 1);
      assert producer[k] == task[k - |step| - 1];
    }
  }

  lemma NoDotAfter(s: string)
    ensures var dot := LastIndex(s, "."); -1 <= dot < |s| && '.' !in s[dot + 1..]
    ensures var dot := LastIndex(s, "."); dot >= 0 ==> s == s[..dot] + "." + s[dot + 1..]
    ensures LastIndex(s, ".") < 0 ==> '.' !in s
  {
    var dot := LastIndex(s, ".");
    LastIndexIs(s, ".");
    forall k | dot < k < |s| ensures s[k] != '.' {
      assert s[k..k + 1] == [s[k]] && !StandsAt(s, ".", k);
    }
    if dot >= 0 {
      assert s[dot..dot + 1] == ".";
    } else {
      assert s[dot + 1..] == s;
    }
  }

  // ----- Printing and reading back.

  lemma PrefixedTrim(body: string)
    requires body != "" && !IsSpace(body[|body| - 1])
    ensures TrimSpace(PREFIX + body) == PREFIX + body && PREFIX <= PREFIX + body && (PREFIX + body)[|PREFIX|..] == body
  {
  }

  lemma NameIsPlain(name: string)
    requires IsOutputName(name)
    ensures name != "" && '.' !in name && !IsSpace(name[|name| - 1]) && TrimSpace(name) == name
  {
  }

  /** A body of any producer and any output name is taken apart at the marker between them. */
  lemma BodyParts(producer: string, output: string)
    requires producer != "" && IsOutputName(output)
    ensures var body := producer + MARKER + output;
            && HasForm(body) && Producer(body) == producer && Output(body) == output
            && TrimSpace(PREFIX + body) == PREFIX + body && TrimPrefix(PREFIX + body, PREFIX) == body
            && Parse(PREFIX + body) == ReadProducer(producer, output)
  {
    var body := producer + MARKER + output;
    NameIsPlain(output);
    MarkerAt(producer, output);
    PrefixedTrim(body);
    assert body[..|producer|] == producer && body[|producer| + |MARKER|..] == output;
  }

  lemma TrimKeepsNoDot(s: string)
    requires '.' !in s
    ensures '.' !in TrimSpace(s)
  {
    var i := TrimIsSlice(s);
  }

  /** Trimming never cuts into a piece whose ends are not spaces. */
  lemma {:induction false} TrimRightKeeps(s: string, j: nat)
    requires j < |s| && !IsSpace(s[j])
    ensures |TrimRight(s)| > j
    decreases |s|
  {
    if IsSpace(s[|s| - 1]) {
      TrimRightKeeps(s[..|s| - 1], j);
    }
  }

  lemma {:induction false} TrimLeftKeeps(s: string, i: nat)
    requires i < |s| && !IsSpace(s[i])
    ensures |TrimLeft(s)| >= |s| - i
    decreases |s|
  {
    if IsSpace(s[0]) {
      TrimLeftKeeps(s[1..], i - 1);
    }
  }

  lemma TrimKeeps(s: string, i: nat, j: nat)
    requires i <= j < |s| && !IsSpace(s[i]) && !IsSpace(s[j])
    ensures |TrimSpace(s)| >= j + 1 - i
  {
    TrimLeftKeeps(s, i);
    var left := TrimLeft(s);
    var cut := |s| - |left|;
    assert cut <= i && left == s[cut..] by {
      TrimLeftIsSlice(s);
    }
    assert left[j - cut] == s[j];
    TrimRightKeeps(left, j - cut);
  }

  lemma CheckedParts(ref: Ref)
    requires Checked(ref).Read?
    ensures Checked(ref) == Read(ref) && ref.step != "" && ref.task != ""
    ensures Trimmed(ref.output) ==> IsOutputName(ref.output)
  {
  }

  /** What a successful reading says of its parts. */
  lemma ReadParts(producer: string, output: string)
    requires ReadProducer(producer, output).Read?
    ensures var ref, dot := ReadProducer(producer, output).ref, LastIndex(producer, ".");
            && dot < |producer| - 1 && ref.output == output && (Trimmed(output) ==> IsOutputName(output))
            && ref.step != "" && Trimmed(ref.step) && ref.task != "" && Trimmed(ref.task)
            && if dot <= 0 then ref.step == ref.task == TrimSpace(producer)
               else ref.step == TrimSpace(producer[..dot]) && ref.task == TrimSpace(producer[dot + 1..])
  {
    var dot := LastIndex(producer, ".");
    if dot <= 0 {
      var step := TrimSpace(producer);
      CheckedParts(Ref(step, step, output));
    } else {
      CheckedParts(Ref(TrimSpace(producer[..dot]), TrimSpace(producer[dot + 1..]), output));
    }
  }

  lemma OutputIsName(raw: string)
    requires Parse(raw).Read?
    ensures IsOutputName(Parse(raw).ref.output)
  {
    var body := TrimSpace(raw)[|PREFIX|..];
    ReadParts(Producer(body), TrimSpace(Output(body)));
  }

  lemma PairParts(step: string, task: string)
    requires '.' !in task
    ensures var producer := step + "." + task;
            LastIndex(producer, ".") == |step| && producer[..|step|] == step && producer[|step| + 1..] == task
  {
    DotAt(step, task);
  }

  /**
   * A printed task reference reads back as the same triple exactly when the names are not empty and
   * have no spaces around them, the task has no dot and the output is a valid name. The step may be
   * anything else: it may hold dots, and even the marker.
   */
  lemma RoundTripIff(step: string, task: string, output: string)
    ensures Parse(Print(step, task, output)) == Read(Ref(step, task, output))
       <==> step != "" && Trimmed(step) && task != "" && Trimmed(task) && '.' !in task && IsOutputName(output)
  {
    if step != "" && Trimmed(step) && task != "" && Trimmed(task) && '.' !in task && IsOutputName(output) {
      BodyParts(step + "." + task, output);
      NameIsPlain(output);
      PairParts(step, task);
    }
    if Parse(Print(step, task, output)) == Read(Ref(step, task, output)) {
      OutputIsName(Print(step, task, output));
      BodyParts(step + "." + task, output);
      TaskHasNoDot(step, task, output);
    }
  }

  lemma TaskHasNoDot(step: string, task: string, output: string)
    requires ReadProducer(step + "." + task, output) == Read(Ref(step, task, output))
    ensures step != "" && Trimmed(step) && task != "" && Trimmed(task) && '.' !in task
  {
    var producer := step + "." + task;
    ReadParts(producer, output);
    assert Trimmed(producer);
    NoDotAfter(producer);
    TrimKeepsNoDot(producer[LastIndex(producer, ".") + 1..]);
  }

  lemma DotNotLast(step: string)
    requires step != "" && step != "." && LastIndex(step, ".") <= 0
    ensures LastIndex(step, ".") != |step| - 1
  {
    NoDotAfter(step);
  }

  lemma CheckedReads(ref: Ref)
    requires ref.step != "" && ref.task != "" && IsOutputName(ref.output)
    ensures Checked(ref) == Read(ref)
  {
    NameIsPlain(ref.output);
  }

  lemma StepReads(step: string, output: string)
    requires step != "" && Trimmed(step) && IsOutputName(output)
    requires step != "." && LastIndex(step, ".") <= 0
    ensures ReadProducer(step, output) == Read(Ref(step, step, output))
  {
    DotNotLast(step);
    CheckedReads(Ref(step, step, output));
    assert TrimSpace(step) == step;
  }

  lemma StepIsWhole(step: string, output: string)
    requires ReadProducer(step, output) == Read(Ref(step, step, output))
    ensures step != "" && Trimmed(step) && step != "." && LastIndex(step, ".") <= 0
  {
    ReadParts(step, output);
    NoDotAfter(step);
    var i := TrimIsSlice(step[LastIndex(step, ".") + 1..]);
  }

  /** The step-level form reads back when no dot but a leading one would split the step. */
  lemma StepLevelIff(step: string, output: string)
    ensures Parse(PrintStepLevel(step, output)) == Read(Ref(step, step, output))
       <==> step != "" && Trimmed(step) && step != "." && LastIndex(step, ".") <= 0 && IsOutputName(output)
  {
    if step != "" && Trimmed(step) && step != "." && LastIndex(step, ".") <= 0 && IsOutputName(output) {
      BodyParts(step, output);
      StepReads(step, output);
    }
    if Parse(PrintStepLevel(step, output)) == Read(Ref(step, step, output)) {
      OutputIsName(PrintStepLevel(step, output));
      if step == "" {
        EmptyProducer(output);
      } else {
        BodyParts(step, output);
        StepIsWhole(step, output);
      }
    }
  }

  lemma EmptyProducer(output: string)
    requires IsOutputName(output)
    ensures !Parse(PrintStepLevel("", output)).Read?
  {
    var body := "" + MARKER + output;
    NameIsPlain(output);
    MarkerAt("", output);
    PrefixedTrim(body);
  }

  /** The step of a reading starts, and its task ends, inside the producer when that is trimmed. */
  lemma ProducerLonger(producer: string, dot: nat)
    requires dot < |producer| && TrimSpace(producer[..dot]) != "" && TrimSpace(producer[dot + 1..]) != ""
    ensures |TrimSpace(producer)| > |TrimSpace(producer[..dot])| + |TrimSpace(producer[dot + 1..])|
  {
    var step, task := TrimSpace(producer[..dot]), TrimSpace(producer[dot + 1..]);
    var i := TrimIsSlice(producer[..dot]);
    var j := TrimIsSlice(producer[dot + 1..]);
    assert producer[i] == step[0];
    assert producer[dot + 1 + j + |task| - 1] == task[|task| - 1];
    TrimKeeps(producer, i, dot + 1 + j + |task| - 1);
  }

  /** The whole producer, read as a step, is another reading exactly when a dot splits it. */
  lemma WholeProducer(producer: string, output: string)
    requires ReadProducer(producer, output).Read? && IsOutputName(output)
    ensures var ref, whole := ReadProducer(producer, output).ref,
                              Ref(TrimSpace(producer), TrimSpace(producer), output);
            && whole.step != "" && ref.output == output
            && (LastIndex(producer, ".") <= 0 ==> ref == whole)
            && (LastIndex(producer, ".") > 0 ==> ref.Key() != whole.Key())
  {
    var dot := LastIndex(producer, ".");
    ReadParts(producer, output);
    if dot > 0 {
      ProducerLonger(producer, dot);
    }
  }

  /**
   * Every reference that reads at all has among its candidates the reading as written and the whole
   * producer read as a step; they are two, with different keys, exactly when a dot splits the producer.
   */
  lemma BothReadings(raw: string)
    requires Parse(raw).Read?
    ensures var ref, body := Parse(raw).ref, TrimPrefix(TrimSpace(raw), PREFIX);
            HasForm(body)
            && var whole := Ref(TrimSpace(Producer(body)), TrimSpace(Producer(body)), ref.output);
               && ParseCandidates(raw) == Possible(if LastIndex(Producer(body), ".") <= 0 then [ref] else [ref, whole])
               && (LastIndex(Producer(body), ".") <= 0 ==> ref == whole)
               && (LastIndex(Producer(body), ".") > 0 ==> ref.Key() != whole.Key())
  {
    var body := TrimSpace(raw)[|PREFIX|..];
    var producer, output := Producer(body), TrimSpace(Output(body));
    ReadParts(producer, output);
    WholeProducer(producer, output);
    NameIsPlain(output);
  }

  /** So the step-level form of a dotted step always offers both ways of reading it. */
  lemma DottedStepReadsBothWays(before: string, after: string, output: string)
    requires before != "" && Trimmed(before) && after != "" && Trimmed(after) && '.' !in after && IsOutputName(output)
    ensures var step := before + "." + after;
            ParseCandidates(PrintStepLevel(step, output))
            == Possible([Ref(before, after, output), Ref(step, step, output)])
  {
    var step := before + "." + after;
    assert PrintStepLevel(step, output) == Print(before, after, output);
    RoundTripIff(before, after, output);
    BothReadings(PrintStepLevel(step, output));
    BodyParts(step, output);
    DotAt(before, after);
    assert Trimmed(step);
  }

  // ----- The grammar, without the functions that read it.

  /** Letters, digits and underscores, not starting with a digit. */
  ghost predicate NameText(s: string) {
    && s != "" && !('0' <= s[0] <= '9')
    && forall c :: c in s ==> 'a' <= c <= 'z' || 'A' <= c <= 'Z' || '0' <= c <= '9' || c == '_'
  }

  lemma OutputNameIff(s: string)
    ensures IsOutputName(s) <==> NameText(s)
  {
    if s != "" {
      assert s[0] in s && forall i :: 0 <= i < |s| ==> s[i] in s;
    }
  }

  /** The text of a task reference, as users write it, and exactly which names it carries. */
  lemma WrittenReadsIff(step: string, task: string, output: string)
    requires step != "" && Trimmed(step) && task != "" && Trimmed(task) && '.' !in task
    ensures Parse("$steps." + step + "." + task + ".outputs." + output) == Read(Ref(step, task, output))
       <==> NameText(output)
  {
    assert "$steps." + step + "." + task + ".outputs." + output == Print(step, task, output);
    RoundTripIff(step, task, output);
    OutputNameIff(output);
  }

  lemma NoMarkerInBody(value: string)
    requires "$steps." <= value && forall k :: !StandsAt(value, ".outputs.", k)
    ensures LastIndex(value[|PREFIX|..], MARKER) == -1
  {
    var body := value[|PREFIX|..];
    LastIndexIs(body, MARKER);
    var at := LastIndex(body, MARKER);
    if at >= 0 {
      MarkerMoves(value, at);
      assert false;
    }
  }

  lemma MarkerMoves(value: string, at: nat)
    requires |value| >= |PREFIX| && StandsAt(value[|PREFIX|..], MARKER, at)
    ensures StandsAt(value, ".outputs.", at + |PREFIX|)
  {
    var body := value[|PREFIX|..];
    assert value[at + |PREFIX|..at + |PREFIX| + |MARKER|] == body[at..at + |MARKER|];
  }

  /** A value is a reference, well formed or not, exactly when it starts with the prefix. */
  lemma NotReferenceIff(raw: string)
    ensures Parse(raw) == NotReference <==> !("$steps." <= TrimSpace(raw))
  {
  }

  lemma NoFormIsBad(body: string)
    requires LastIndex(body, MARKER) == -1
    ensures ParseBody(body) == Malformed(BadForm)
  {
  }

  /** With the prefix and no marker it is malformed. */
  lemma NoMarkerIsBad(raw: string)
    requires "$steps." <= TrimSpace(raw) && forall k :: !StandsAt(TrimSpace(raw), ".outputs.", k)
    ensures Parse(raw) == Malformed(BadForm)
  {
    NoMarkerInBody(TrimSpace(raw));
    NoFormIsBad(TrimSpace(raw)[|PREFIX|..]);
  }

  /** What is said of a producer that ends in a dot. */
  lemma DotAtEnd(producer: string, output: string)
    requires producer != "" && producer[|producer| - 1] == '.'
    ensures ReadProducer(producer, output) == Malformed(NoTask)
  {
    LastIndexIs(producer, ".");
    assert producer[|producer| - 1..|producer|] == ".";
    assert StandsAt(producer, ".", |producer| - 1);
  }

  lemma DotStands(s: string, k: nat)
    requires StandsAt(s, ".", k)
    ensures '.' in s
  {
    assert s[k..k + 1][0] == s[k];
  }

  lemma NoDotNoIndex(s: string)
    requires '.' !in s
    ensures LastIndex(s, ".") == -1
  {
    LastIndexIs(s, ".");
    if LastIndex(s, ".") >= 0 {
      DotStands(s, LastIndex(s, "."));
    }
  }

  /** What is said of a producer without a dot: it is a step, unless it is blank or the output is no name. */
  lemma StepAlone(producer: string, output: string)
    requires producer != "" && '.' !in producer && output != "" && Trimmed(output)
    ensures ReadProducer(producer, output)
         == if TrimSpace(producer) == "" then Malformed(NoStep)
            else if !NameText(output) then Malformed(InvalidName)
            else Read(Ref(TrimSpace(producer), TrimSpace(producer), output))
  {
    NoDotNoIndex(producer);
    OutputNameIff(output);
  }

  /** And of one that a dot splits. */
  lemma StepAndTask(step: string, task: string, output: string)
    requires step != "" && task != "" && '.' !in task && output != "" && Trimmed(output)
    ensures ReadProducer(step + "." + task, output)
         == if TrimSpace(step) == "" || TrimSpace(task) == "" then Malformed(EmptyName)
            else if !NameText(output) then Malformed(InvalidName)
            else Read(Ref(TrimSpace(step), TrimSpace(task), output))
  {
    OutputNameIff(output);
    PairParts(step, task);
  }

  /** As BodyParts, for an output that need not be a name. */
  lemma PlainBodyParts(producer: string, output: string)
    requires producer != "" && output != "" && Trimmed(output) && '.' !in output
    ensures Parse(PREFIX + (producer + MARKER + output)) == ReadProducer(producer, output)
  {
    var body := producer + MARKER + output;
    MarkerAt(producer, output);
    assert body[|body| - 1] == output[|output| - 1];
    PrefixedTrim(body);
    assert body[..|producer|] == producer && body[|producer| + |MARKER|..] == output;
  }

  /** The candidates fail exactly as the reading does. */
  lemma CandidatesFailAlike(raw: string)
    ensures Parse(raw) == NotReference <==> ParseCandidates(raw) == NoReference
    ensures forall reason :: Parse(raw) == Malformed(reason) <==> ParseCandidates(raw) == Broken(reason)
    ensures Parse(raw).Read? <==> ParseCandidates(raw).Possible?
  {
  }
}
