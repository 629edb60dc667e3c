/**
 The failure message of a file run: two prefixed lines, written when a pipeline step fails
 and read back for the run's status
 (backend/src/bolagsverket-bulk/bolagsverket-bulk.service.ts:55-63, 440-454).
 */
module FailureMessage {
  import opened Wrappers
  import opened Strings

  const FAILURE_PHASE_PREFIX := "failure_phase:"
  const FAILURE_DETAIL_PREFIX := "failure_detail:"

  const PIPELINE_STEPS := ["download_zip", "archive_zip", "extract_txt", "parse_stream", "apply_changes"]

  datatype Failure = Failure(phase: Option<string>, detail: Option<string>)

  /** `split('\n')` */
  function Lines(s: string): (lines: seq<string>)
    ensures lines != [] && '\n' !in lines[0] && lines[0] <= s
    ensures '\n' !in s <==> lines[0] == s
  {
    if s == "" then [""] else
      var rest := Lines(s[1..]);
      if s[0] == '\n' then [""] + rest else [[s[0]] + rest[0]] + rest[1..]
  }

  /** `find(line => line.startsWith(prefix)) ?? ''` */
  function FindPrefixed(lines: seq<string>, prefix: string): (line: string) {
    if lines == [] then "" else if prefix <= lines[0] then lines[0] else FindPrefixed(lines[1..], prefix)
  }

  /** `line.slice(n)` */
  function Slice(line: string, n: nat): string {
    if n <= |line| then line[n..] else ""
  }

  /** `s || null` */
  function NullIfEmpty(s: string): Option<string> {
    if s == "" then None else Some(s)
  }

  function EncodeFailureMessage(phase: string, detail: string): string {
    FAILURE_PHASE_PREFIX + phase + "\n" + FAILURE_DETAIL_PREFIX + detail
  }

  function DecodeFailureMessage(encoded: Option<string>): Failure {
    var raw := encoded.GetOr("");
    if raw == "" then Failure(None, None)
    else if !Contains(raw, FAILURE_PHASE_PREFIX) then Failure(None, Some(raw))
    else
      var phaseLine := FindPrefixed(Lines(raw), FAILURE_PHASE_PREFIX);
      var detailLine := FindPrefixed(Lines(raw), FAILURE_DETAIL_PREFIX);
      Failure(NullIfEmpty(Trim(Slice(phaseLine, |FAILURE_PHASE_PREFIX|))),
              NullIfEmpty(Trim(Slice(detailLine, |FAILURE_DETAIL_PREFIX|))))
  }

  lemma {:induction false} PrefixJoinsFirstLine(p: string, s: string)
    requires '\n' !in p
    ensures Lines(p + s) == [p + Lines(s)[0]] + Lines(s)[1..]
  {
    hide Lines;
    if p == "" {
      assert p + s == s && p + Lines(s)[0] == Lines(s)[0];
    } else {
      PrefixJoinsFirstLine(p[1..], s);
      AddFirst(p[0], p[1..] + s);
      assert p + s == [p[0]] + (p[1..] + s);
      assert [p[0]] + (p[1..] + Lines(s)[0]) == p + Lines(s)[0];
    }
  }

  lemma AddFirst(c: char, s: string)
    requires c != '\n'
    ensures Lines([c] + s) == [[c] + Lines(s)[0]] + Lines(s)[1..]
  {
    assert ([c] + s)[1..] == s;
  }

  lemma BrokenLine(s: string)
    ensures Lines("\n" + s) == [""] + Lines(s)
  {
    assert ("\n" + s)[1..] == s;
  }

  lemma {:induction false} LinesConcat(a: string, b: string)
    ensures Lines(a + "\n" + b) == Lines(a) + Lines(b)
  {
    hide Lines;
    if a == "" {
      BrokenLine(b);
      EmptyLine();
      assert a + "\n" + b == "\n" + b;
    } else {
      var rest := a[1..] + "\n" + b;
      LinesConcat(a[1..], b);
      assert a + "\n" + b == [a[0]] + rest && a == [a[0]] + a[1..];
      if a[0] == '\n' {
        assert [a[0]] == "\n";
        BrokenLine(rest);
        BrokenLine(a[1..]);
        assert [""] + (Lines(a[1..]) + Lines(b)) == [""] + Lines(a[1..]) + Lines(b);
      } else {
        AddFirst(a[0], rest);
        AddFirst(a[0], a[1..]);
        var tail := Lines(a[1..]);
        assert (tail + Lines(b))[1..] == tail[1..] + Lines(b);
        assert [[a[0]] + tail[0]] + (tail[1..] + Lines(b)) == [[a[0]] + tail[0]] + tail[1..] + Lines(b);
      }
    }
  }

  lemma EmptyLine()
    ensures Lines("") == [""]
  {
  }

  /** Neither prefix breaks a line, and no phase line reads as a detail line. */
  lemma PrefixesDiffer(x: string)
    ensures '\n' !in FAILURE_PHASE_PREFIX && '\n' !in FAILURE_DETAIL_PREFIX
    ensures !(FAILURE_DETAIL_PREFIX <= FAILURE_PHASE_PREFIX + x) && FAILURE_PHASE_PREFIX != ""
  {
    assert FAILURE_DETAIL_PREFIX[8] == 'd' && (FAILURE_PHASE_PREFIX + x)[8] == 'p';
  }

  /** The lines of an encoded message: those of the phase, then those of the detail, the first of each prefixed. */
  lemma EncodedLines(phase: string, detail: string)
    ensures Lines(EncodeFailureMessage(phase, detail)) ==
            [FAILURE_PHASE_PREFIX + Lines(phase)[0]] + Lines(phase)[1..] +
            [FAILURE_DETAIL_PREFIX + Lines(detail)[0]] + Lines(detail)[1..]
  {
    hide Lines, FAILURE_PHASE_PREFIX, FAILURE_DETAIL_PREFIX;
    var first, second := FAILURE_PHASE_PREFIX + phase, FAILURE_DETAIL_PREFIX + detail;
    PrefixesDiffer("");
    assert EncodeFailureMessage(phase, detail) == first + "\n" + second;
    LinesConcat(first, second);
    PrefixJoinsFirstLine(FAILURE_PHASE_PREFIX, phase);
    PrefixJoinsFirstLine(FAILURE_DETAIL_PREFIX, detail);
    var tail := Lines(detail)[1..];
    assert Lines(first) + ([FAILURE_DETAIL_PREFIX + Lines(detail)[0]] + tail)
        == Lines(first) + [FAILURE_DETAIL_PREFIX + Lines(detail)[0]] + tail;
  }

  lemma FindFirst(prefix: string, x: string, lines: seq<string>)
    requires lines != [] && lines[0] == prefix + x
    ensures FindPrefixed(lines, prefix) == prefix + x && Slice(prefix + x, |prefix|) == x
  {
    assert (prefix + x)[|prefix|..] == x;
  }

  lemma {:induction false} FindLater(prefix: string, a: seq<string>, x: string, b: seq<string>)
    ensures FindPrefixed(a + [prefix + x] + b, prefix) == FindPrefixed(a + [prefix + x], prefix)
    ensures (forall line :: line in a ==> !(prefix <= line)) ==> FindPrefixed(a + [prefix + x], prefix) == prefix + x
  {
    if a == [] {
      FindFirst(prefix, x, [prefix + x] + b);
      FindFirst(prefix, x, [prefix + x]);
      assert a + [prefix + x] + b == [prefix + x] + b && a + [prefix + x] == [prefix + x];
    } else {
      FindLater(prefix, a[1..], x, b);
      assert (a + [prefix + x] + b)[1..] == a[1..] + [prefix + x] + b
             && (a + [prefix + x])[1..] == a[1..] + [prefix + x];
      assert a[0] in a && forall line :: line in a[1..] ==> line in a;
    }
  }

  /** The line a detail is read from: the first one after the phase's first line that has the detail prefix. */
  function DetailLine(phase: string, detail: string): string {
    FindPrefixed(Lines(phase)[1..] + [FAILURE_DETAIL_PREFIX + Lines(detail)[0]], FAILURE_DETAIL_PREFIX)
  }

  /**
   Decoding an encoded message returns the trimmed first line of the phase, and the trimmed
   rest of the detail line; an empty one reads as absent. The detail line is the detail's
   first line, unless a later line of the phase carries the detail prefix.
   */
  lemma DecodeEncoded(phase: string, detail: string)
    ensures DecodeFailureMessage(Some(EncodeFailureMessage(phase, detail))) ==
            Failure(NullIfEmpty(Trim(Lines(phase)[0])),
                    NullIfEmpty(Trim(Slice(DetailLine(phase, detail), |FAILURE_DETAIL_PREFIX|))))
    ensures (forall line :: line in Lines(phase)[1..] ==> !(FAILURE_DETAIL_PREFIX <= line)) ==>
              Slice(DetailLine(phase, detail), |FAILURE_DETAIL_PREFIX|) == Lines(detail)[0]
  {
    hide Lines, Trim, Slice, FindPrefixed, NullIfEmpty, EncodeFailureMessage, FAILURE_PHASE_PREFIX,
         FAILURE_DETAIL_PREFIX;
    var raw := EncodeFailureMessage(phase, detail);
    var first, x := FAILURE_PHASE_PREFIX + Lines(phase)[0], Lines(detail)[0];
    EncodedLines(phase, detail);
    FindFirst(FAILURE_PHASE_PREFIX, Lines(phase)[0], Lines(raw));
    PrefixesDiffer(Lines(phase)[0]);
    assert Lines(raw)[0] <= raw && raw[0..] == raw;
    FindSkips(FAILURE_DETAIL_PREFIX, Lines(raw));
    assert Lines(raw)[1..] == Lines(phase)[1..] + [FAILURE_DETAIL_PREFIX + x] + Lines(detail)[1..];
    FindLater(FAILURE_DETAIL_PREFIX, Lines(phase)[1..], x, Lines(detail)[1..]);
    FindFirst(FAILURE_DETAIL_PREFIX, x, [FAILURE_DETAIL_PREFIX + x]);
  }

  lemma FindSkips(prefix: string, lines: seq<string>)
    requires lines != [] && !(prefix <= lines[0])
    ensures FindPrefixed(lines, prefix) == FindPrefixed(lines[1..], prefix)
  {
  }

  /** A phase of one line leaves the detail's first line to be read. */
  lemma OneLinePhase(phase: string, detail: string)
    requires '\n' !in phase
    ensures DecodeFailureMessage(Some(EncodeFailureMessage(phase, detail)))
         == Failure(NullIfEmpty(Trim(phase)), NullIfEmpty(Trim(Lines(detail)[0])))
  {
    hide DecodeFailureMessage, EncodeFailureMessage, Trim, NullIfEmpty, DetailLine, Slice, FAILURE_DETAIL_PREFIX;
    DecodeEncoded(phase, detail);
    OneLine(phase);
  }

  lemma {:induction false} OneLine(s: string)
    requires '\n' !in s
    ensures Lines(s) == [s]
  {
    if s != "" {
      OneLine(s[1..]);
      assert [s[0]] + s[1..] == s;
    }
  }

  /** One trimmed, non-empty line. */
  ghost predicate OneTrimmedLine(s: string) {
    s != "" && '\n' !in s && IsTrimmed(s)
  }

  /** The message is read back whole exactly when phase and detail are each one trimmed, non-empty line. */
  lemma RoundTripExactly(phase: string, detail: string)
    ensures DecodeFailureMessage(Some(EncodeFailureMessage(phase, detail))) == Failure(Some(phase), Some(detail))
       <==> OneTrimmedLine(phase) && OneTrimmedLine(detail)
  {
    hide DecodeFailureMessage, EncodeFailureMessage, Lines, DetailLine, Slice;
    DecodeEncoded(phase, detail);
    TrimmedFirstLineIsAll(phase);
    TrimmedFirstLineIsAll(detail);
    if '\n' !in phase {
      OneLinePhase(phase, detail);
    }
  }

  lemma TrimmedFirstLineIsAll(s: string)
    ensures NullIfEmpty(Trim(Lines(s)[0])) == Some(s) <==> OneTrimmedLine(s)
  {
    hide Lines;
    var first := Lines(s)[0];
    if Trim(first) == s {
      assert |Trim(first)| <= |first| <= |s|;
    }
  }

  /** Every pipeline step is read back, whatever the detail. */
  lemma StepsSurvive(i: nat, detail: string)
    requires i < |PIPELINE_STEPS|
    ensures DecodeFailureMessage(Some(EncodeFailureMessage(PIPELINE_STEPS[i], detail)))
         == Failure(Some(PIPELINE_STEPS[i]), NullIfEmpty(Trim(Lines(detail)[0])))
  {
    hide DecodeFailureMessage, EncodeFailureMessage, Lines, Trim;
    var step := PIPELINE_STEPS[i];
    assert OneTrimmedLine(step);
    OneLinePhase(step, detail);
    assert Trim(step) == step;
  }
}
