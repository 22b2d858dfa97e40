/** The registration executor's progress writer: installer output arrives in arbitrary chunks,
    complete lines are observed as they appear, and each installation stage is reported once.

    Characters stand for the bytes of the output. */
module ProgressWriter {
  import opened Text

  datatype Stage = Stage(needle: string, reason: string, stage: string, progress: int)

  const STAGES: seq<Stage> := [
    Stage("==> Isolated installation preflight", "image_preflight_started", "image-preflight", 10),
    Stage("==> Namespace and credentials", "agent_install_started", "agent-install", 20),
    Stage("==> OADP backend", "oadp_install_started", "oadp-operator", 40),
    Stage("OADP and Kopia node-agent are ready", "oadp_ready", "oadp-ready", 65),
    Stage("==> HyperCDR agent", "agent_deployment_started", "agent-deployment", 80),
    Stage("==> Readiness", "readiness_started", "readiness", 90)
  ]

  /** A reason identifies its stage: what makes `seen`, keyed by reason, a record of stages. */
  ghost predicate DistinctReasons(table: seq<Stage>) {
    forall i, j :: 0 <= i < j < |table| ==> table[i].reason != table[j].reason
  }

  lemma StagesDistinct()
    ensures DistinctReasons(STAGES)
  {
    assert STAGES[0].reason[..2] == "im";
    assert STAGES[1].reason[..7] == "agent_i";
    assert STAGES[2].reason[..6] == "oadp_i";
    assert STAGES[3].reason[..6] == "oadp_r";
    assert STAGES[4].reason[..7] == "agent_d";
    assert STAGES[5].reason[..2] == "re";
  }

  // ---------------------------------------------------------------- which stages are reported

  /** The stages among the first `k` of the table that `line` reports, given those already reported. */
  function NewStages(table: seq<Stage>, done: seq<Stage>, line: string, k: nat): (r: seq<Stage>)
    requires k <= |table|
  {
    if k == 0 then []
    else
      NewStages(table, done, line, k - 1)
      + if table[k - 1] !in done && Contains(line, table[k - 1].needle) then [table[k - 1]] else []
  }

  /** The stages the lines report, in the order in which they are reported. */
  function Report(table: seq<Stage>, lines: seq<string>): seq<Stage> {
    if lines == [] then []
    else
      var before := Report(table, lines[..|lines| - 1]);
      before + NewStages(table, before, lines[|lines| - 1], |table|)
  }

  lemma NewStagesNone(table: seq<Stage>, done: seq<Stage>, line: string)
    ensures NewStages(table, done, line, 0) == []
  {
  }

  lemma NewStagesStep(table: seq<Stage>, done: seq<Stage>, line: string, k: nat)
    requires k < |table|
    ensures NewStages(table, done, line, k + 1) == NewStages(table, done, line, k)
              + if table[k] !in done && Contains(line, table[k].needle) then [table[k]] else []
  {
  }

  lemma ReportStep(table: seq<Stage>, lines: seq<string>, line: string)
    ensures Report(table, lines + [line]) ==
            Report(table, lines) + NewStages(table, Report(table, lines), line, |table|)
  {
    assert (lines + [line])[..|lines|] == lines;
  }

  /** The line `i` is the first one holding the stage's needle. */
  ghost predicate FirstLine(lines: seq<string>, s: Stage, i: nat) {
    && i < |lines| && Contains(lines[i], s.needle)
    && forall k :: 0 <= k < i ==> !Contains(lines[k], s.needle)
  }

  /** Reported earlier: by an earlier line, or by the same line and higher in the table. */
  ghost predicate Before(table: seq<Stage>, lines: seq<string>, s: Stage, t: Stage) {
    exists i, j, p, q ::
      && FirstLine(lines, s, i) && FirstLine(lines, t, j)
      && 0 <= p < |table| && table[p] == s && 0 <= q < |table| && table[q] == t
      && (i < j || (i == j && p < q))
  }

  lemma {:induction false} NewStagesExactly(table: seq<Stage>, done: seq<Stage>, line: string, k: nat, s: Stage)
    requires k <= |table|
    ensures s in NewStages(table, done, line, k) <==> s in table[..k] && s !in done && Contains(line, s.needle)
  {
    if k > 0 {
      NewStagesExactly(table, done, line, k - 1, s);
      assert table[..k] == table[..k - 1] + [table[k - 1]];
    }
  }

  /** The stages one line reports follow the table. */
  lemma {:induction false} NewStagesOrder(table: seq<Stage>, done: seq<Stage>, line: string, k: nat, i: nat, j: nat)
    returns (p: nat, q: nat)
    requires k <= |table| && i < j < |NewStages(table, done, line, k)|
    ensures p < q < k && table[p] == NewStages(table, done, line, k)[i] && table[q] == NewStages(table, done, line, k)[j]
  {
    var r := NewStages(table, done, line, k - 1);
    if j < |r| {
      p, q := NewStagesOrder(table, done, line, k - 1, i, j);
    } else {
      NewStagesExactly(table, done, line, k - 1, r[i]);
      p :| 0 <= p < k - 1 && table[..k - 1][p] == r[i];
      q := k - 1;
    }
  }

  lemma FirstLineAppend(lines: seq<string>, line: string, s: Stage, i: nat)
    ensures FirstLine(lines, s, i) ==> FirstLine(lines + [line], s, i)
    ensures (forall k :: 0 <= k < |lines| ==> !Contains(lines[k], s.needle)) && Contains(line, s.needle) ==>
              FirstLine(lines + [line], s, |lines|)
  {
    forall k | 0 <= k < |lines| ensures (lines + [line])[k] == lines[k] {}
  }

  /** A stage is reported exactly when some complete line holds its needle. */
  lemma {:induction false} ReportExactly(table: seq<Stage>, lines: seq<string>, s: Stage)
    ensures s in Report(table, lines) <==> s in table && exists l :: l in lines && Contains(l, s.needle)
  {
    if lines != [] {
      var n := |lines| - 1;
      assert lines == lines[..n] + [lines[n]];
      ReportExactly(table, lines[..n], s);
      NewStagesExactly(table, Report(table, lines[..n]), lines[n], |table|, s);
      assert table[..|table|] == table;
      if s in table && Contains(lines[n], s.needle) {
        assert lines[n] in lines;
      }
    }
  }

  /** Every reported stage has a first line holding its needle. */
  lemma {:induction false} ReportedHasFirstLine(table: seq<Stage>, lines: seq<string>, s: Stage) returns (i: nat)
    requires s in Report(table, lines)
    ensures FirstLine(lines, s, i)
  {
    ReportExactly(table, lines, s);
    i := 0;
    while !Contains(lines[i], s.needle)
      invariant i < |lines| && forall k :: 0 <= k < i ==> !Contains(lines[k], s.needle)
      decreases |lines| - i
    {
      assert exists m :: 0 <= m < |lines| && Contains(lines[m], s.needle);
      i := i + 1;
    }
  }

  /** Reports come in the order of the lines that triggered them, the table breaking ties. */
  lemma {:induction false} ReportOrder(table: seq<Stage>, lines: seq<string>, a: nat, b: nat)
    requires a < b < |Report(table, lines)|
    ensures Before(table, lines, Report(table, lines)[a], Report(table, lines)[b])
    decreases |lines|
  {
    hide Before, NewStages;
    var n := |lines| - 1;
    var init, line := lines[..n], lines[n];
    assert lines == init + [line];
    var before := Report(table, init);
    var added := NewStages(table, before, line, |table|);
    assert Report(table, lines) == before + added;
    var s, t := Report(table, lines)[a], Report(table, lines)[b];
    if b < |before| {
      ReportOrder(table, init, a, b);
      BeforeAppend(table, init, line, s, t);
    } else if a < |before| {
      assert s in before && t in added;
      OldBeforeNew(table, init, line, s, t);
    } else {
      NewInOrder(table, init, line, a - |before|, b - |before|);
    }
  }

  lemma OldBeforeNew(table: seq<Stage>, init: seq<string>, line: string, s: Stage, t: Stage)
    requires s in Report(table, init) && t in NewStages(table, Report(table, init), line, |table|)
    ensures Before(table, init + [line], s, t)
  {
    var i := ReportedHasFirstLine(table, init, s);
    FirstLineAppend(init, line, s, i);
    ReportExactly(table, init, s);
    NewStagesExactly(table, Report(table, init), line, |table|, t);
    NewlyFirst(table, init, line, t);
    var p :| 0 <= p < |table| && table[p] == s;
    var q :| 0 <= q < |table| && table[q] == t;
  }

  lemma NewInOrder(table: seq<Stage>, init: seq<string>, line: string, a: nat, b: nat)
    requires a < b < |NewStages(table, Report(table, init), line, |table|)|
    ensures var added := NewStages(table, Report(table, init), line, |table|);
            Before(table, init + [line], added[a], added[b])
  {
    var before := Report(table, init);
    var added := NewStages(table, before, line, |table|);
    var p, q := NewStagesOrder(table, before, line, |table|, a, b);
    NewStagesExactly(table, before, line, |table|, added[a]);
    NewStagesExactly(table, before, line, |table|, added[b]);
    NewlyFirst(table, init, line, added[a]);
    NewlyFirst(table, init, line, added[b]);
  }

  lemma BeforeAppend(table: seq<Stage>, init: seq<string>, line: string, s: Stage, t: Stage)
    requires Before(table, init, s, t)
    ensures Before(table, init + [line], s, t)
  {
    var i, j, p, q :| FirstLine(init, s, i) && FirstLine(init, t, j)
      && 0 <= p < |table| && table[p] == s && 0 <= q < |table| && table[q] == t && (i < j || (i == j && p < q));
    FirstLineAppend(init, line, s, i);
    FirstLineAppend(init, line, t, j);
  }

  lemma NewlyFirst(table: seq<Stage>, init: seq<string>, line: string, s: Stage)
    requires s in table && s !in Report(table, init) && Contains(line, s.needle)
    ensures FirstLine(init + [line], s, |init|)
  {
    ReportExactly(table, init, s);
    FirstLineAppend(init, line, s, 0);
  }

  /** No stage is reported twice. */
  lemma ReportedOnce(table: seq<Stage>, lines: seq<string>, a: nat, b: nat)
    requires DistinctReasons(table) && a < b < |Report(table, lines)|
    ensures Report(table, lines)[a].reason != Report(table, lines)[b].reason
  {
    ReportOrder(table, lines, a, b);
    var s, t := Report(table, lines)[a], Report(table, lines)[b];
    var i, j, p, q :| FirstLine(lines, s, i) && FirstLine(lines, t, j)
      && 0 <= p < |table| && table[p] == s && 0 <= q < |table| && table[q] == t && (i < j || (i == j && p < q));
    if s.reason == t.reason {
      assert false;
    }
  }

  // ---------------------------------------------------------------- the writer

  class RegistrationProgressWriter {
    const stages: seq<Stage>
    var buffer: string
    var pending: string
    var seen: set<string>
    /** The stages sent to the task store, in order. */
    var reported: seq<Stage>
    /** The lines passed to Observe. */
    ghost var observed: seq<string>

    /** Whatever the chunks were, the writer is where splitting the whole buffer at once would put it. */
    ghost predicate Valid()
      reads this
    {
      && pending == Rest(buffer)
      && observed == Lines(buffer)
      && Consistent()
    }

    ghost predicate Consistent()
      reads this
    {
      && DistinctReasons(stages)
      && reported == Report(stages, observed)
      && SeenIsReported()
    }

    ghost predicate SeenIsReported()
      reads this
    {
      forall i :: 0 <= i < |stages| ==> (stages[i].reason in seen <==> stages[i] in reported)
    }

    constructor ()
      ensures Valid() && stages == STAGES && buffer == "" && reported == [] && observed == []
    {
      stages := STAGES;
      buffer, pending, seen, reported, observed := "", "", {}, [], [];
      StagesDistinct();
    }

    method Write(data: string) returns (n: nat)
      requires Valid()
      modifies this
      ensures Valid()
      ensures buffer == old(buffer) + data && n == |data|
    {
      hide Lines, Rest, Report, DistinctReasons;
      ghost var all, rest := Lines(buffer + data), Rest(buffer + data);
      SplitAppend(buffer, data);
      buffer := buffer + data;
      n := |data|;
      pending := pending + data;
      while true
        invariant Consistent()
        invariant buffer == old(buffer) + data
        invariant observed + Lines(pending) == all && Rest(pending) == rest
        decreases |pending|
      {
        var index := IndexByte(pending, '\n');
        if index < 0 {
          NoNewline(pending);
          break;
        }
        ghost var line, tail := pending[..index], pending[index + 1..];
        assert pending == line + "\n" + tail;
        CutFirst(line, tail);
        assert observed + Lines(pending) == (observed + [line]) + Lines(tail);
        Observe(pending[..index]);
        pending := pending[index + 1..];
      }
    }

    method Observe(line: string)
      requires Consistent()
      modifies this`seen, this`reported, this`observed
      ensures Consistent()
      ensures observed == old(observed) + [line]
    {
      hide Contains, NewStages, DistinctReasons;
      ghost var before := reported;
      NewStagesNone(stages, before, line);
      for i := 0 to |stages|
        invariant reported == before + NewStages(stages, before, line, i)
        invariant SeenIsReported()
        invariant observed == old(observed)
      {
        NewStagesStep(stages, before, line, i);
        NotYetReported(before, line, i);
        if stages[i].reason in seen || !Contains(line, stages[i].needle) {
          continue;
        }
        AddSeen(i);
        seen := seen + {stages[i].reason};
        reported := reported + [stages[i]];
      }
      observed := observed + [line];
      ReportStep(stages, old(observed), line);
    }

    /** Recording one more stage keeps `seen` and `reported` in step, reasons being distinct. */
    lemma AddSeen(i: nat)
      requires DistinctReasons(stages) && SeenIsReported() && i < |stages|
      ensures forall k :: 0 <= k < |stages| ==>
                (stages[k].reason in seen + {stages[i].reason} <==> stages[k] in reported + [stages[i]])
    {
    }

    /** Within one line, a stage further down the table is not among the new reports yet. */
    lemma NotYetReported(before: seq<Stage>, line: string, i: nat)
      requires DistinctReasons(stages) && i < |stages|
      ensures stages[i] !in NewStages(stages, before, line, i)
    {
      NewStagesExactly(stages, before, line, i, stages[i]);
    }

    /** A snapshot of everything written so far. */
    method Bytes() returns (copy: string)
      requires Valid()
      ensures copy == Unlines(observed) + pending
    {
      SplitLosesNothing(buffer);
      copy := buffer;
    }
  }

  function Concat(chunks: seq<string>): string {
    if chunks == [] then "" else chunks[0] + Concat(chunks[1..])
  }

  /** However the output is cut into chunks, the writer observes the lines and reports the stages
      of the whole output, keeps it byte for byte, and holds back a newline-free fragment. */
  method WriteAll(w: RegistrationProgressWriter, chunks: seq<string>)
    requires w.Valid() && w.buffer == ""
    modifies w
    ensures w.Valid()
    ensures w.buffer == Concat(chunks)
    ensures w.observed == Lines(Concat(chunks))
    ensures w.reported == Report(w.stages, Lines(Concat(chunks)))
    ensures w.pending == Rest(Concat(chunks)) && '\n' !in w.pending
  {
    for i := 0 to |chunks|
      invariant w.Valid()
      invariant w.buffer + Concat(chunks[i..]) == Concat(chunks)
    {
      var _ := w.Write(chunks[i]);
    }
  }
}
