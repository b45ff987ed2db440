/**
 * The parse half of `_updateFromOutput` in gnome-extension/extension.js: the
 * output of `docker ps --all --format '{{.Names}}\t{{.State}}'` becomes a map
 * from container name to reported state.
 *
 * Only the whole output is trimmed before it is split into lines; a line is
 * dropped only when it is empty. Each line is split on tabs and destructured as
 * `[name, state]`: the line adds nothing when its first field is empty (the line
 * starts with a tab), otherwise the trimmed first field maps to the trimmed
 * second field, or to "" when the line has no tab. A later line for the same
 * name overwrites an earlier one.
 */
module DockerState {
  import opened Text

  datatype Option<T> = None | Some(value: T)

  /** What one kept line contributes: `Some((name, state))`, or nothing. */
  function ParseLine(line: string): Option<(string, string)>
  {
    var fields := Split(line, '\t');
    if fields[0] == [] then None
    else Some((Trim(fields[0]), Trim(if |fields| > 1 then fields[1] else [])))
  }

  /** Entry `e` sets the map's entry for `name`. */
  predicate Names(e: Option<(string, string)>, name: string) {
    e.Some? && e.value.0 == name
  }

  /** What each line contributes, in order. */
  function Entries(lines: seq<string>): (es: seq<Option<(string, string)>>)
  {
    seq(|lines|, k requires 0 <= k < |lines| => ParseLine(lines[k]))
  }

  /** The map after the loop has applied `entries`, in order. */
  function Fold(entries: seq<Option<(string, string)>>): map<string, string>
  {
    if entries == [] then map[]
    else
      var m := Fold(entries[..|entries| - 1]);
      match entries[|entries| - 1]
      case None => m
      case Some((name, state)) => m[name := state]
  }

  /** The map `_updateFromOutput` builds from `stdout`. */
  function Parse(stdout: string): map<string, string>
  {
    Fold(Entries(NonEmptyLines(stdout)))
  }

  /** The first loop of `_updateFromOutput`, which fills the `dockerState` map
      line by line. */
  method ParseOutput(stdout: string) returns (dockerState: map<string, string>)
    ensures dockerState == Parse(stdout)
  {
    var lines := NonEmptyLines(stdout);
    dockerState := map[];
    assert |Entries(lines[..0])| == 0;
    for i := 0 to |lines|
      invariant dockerState == Fold(Entries(lines[..i]))
    {
      var fields := Split(lines[i], '\t');
      var name := fields[0];
      var state := if |fields| > 1 then fields[1] else "";
      if name != "" {
        dockerState := dockerState[Trim(name) := Trim(state)];
      }
      FoldEntriesStep(lines, i);
    }
    assert lines[..|lines|] == lines;
  }

  /** One more line: its entry, if any, is written over the map so far. */
  lemma FoldEntriesStep(lines: seq<string>, i: nat)
    requires i < |lines|
    ensures Fold(Entries(lines[..i + 1])) ==
      if ParseLine(lines[i]).None? then Fold(Entries(lines[..i]))
      else Fold(Entries(lines[..i]))[ParseLine(lines[i]).value.0 := ParseLine(lines[i]).value.1]
  {
    var es := Entries(lines[..i + 1]);
    assert es[..i] == Entries(lines[..i]);
    assert es[i] == ParseLine(lines[i]);
  }

  /** A line adds nothing exactly when it is empty or starts with a tab. */
  lemma ParseLineNone(line: string)
    ensures ParseLine(line).None? <==> line == [] || line[0] == '\t'
  {
    var fields := Split(line, '\t');
    if fields[0] != [] {
      assert line[0] == fields[0][0] by {
        if |fields| > 1 {
          assert line == fields[0] + (['\t'] + Join(fields[1..], '\t'));
        }
      }
      assert fields[0][0] in fields[0];
    }
  }

  /** A line without a tab registers its trimmed self with the empty state. */
  lemma ParseLineNoTab(line: string)
    requires line != [] && '\t' !in line
    ensures ParseLine(line) == Some((Trim(line), []))
  {
    SplitJoin([line], '\t');
  }

  /** A line `a \t b \t rest`: the name is the trimmed first field, the state the
      trimmed second, and whatever follows the second tab is ignored. */
  lemma ParseLineFields(a: string, b: string, rest: string)
    requires a != [] && '\t' !in a && '\t' !in b
    ensures ParseLine(a + ['\t'] + b) == Some((Trim(a), Trim(b)))
    ensures ParseLine(a + ['\t'] + b + ['\t'] + rest) == Some((Trim(a), Trim(b)))
  {
    var two := [a, b];
    assert two[1..] == [b];
    assert Join(two, '\t') == a + ['\t'] + b;
    SplitJoin(two, '\t');
    var more := [a, b] + Split(rest, '\t');
    assert more[1..] == [b] + Split(rest, '\t');
    assert more[1..][1..] == Split(rest, '\t');
    assert Join(more, '\t') == a + ['\t'] + b + ['\t'] + rest;
    SplitJoin(more, '\t');
  }

  /** The key set: a name is in the map iff some entry names it. */
  lemma {:induction false} FoldHas(entries: seq<Option<(string, string)>>, name: string)
    ensures name in Fold(entries) <==> exists j :: 0 <= j < |entries| && Names(entries[j], name)
  {
    if entries != [] {
      var init := entries[..|entries| - 1];
      FoldHas(init, name);
      assert forall j :: 0 <= j < |init| ==> init[j] == entries[j];
      if name in Fold(entries) && !Names(entries[|entries| - 1], name) {
        var j :| 0 <= j < |init| && Names(init[j], name);
        assert Names(entries[j], name);
      }
    }
  }

  /** Last wins: the state of a name is the state in the last entry that names it. */
  lemma {:induction false} FoldLastWins(entries: seq<Option<(string, string)>>, i: nat, name: string)
    requires i < |entries| && Names(entries[i], name)
    requires forall j :: i < j < |entries| ==> !Names(entries[j], name)
    ensures name in Fold(entries) && Fold(entries)[name] == entries[i].value.1
  {
    var init := entries[..|entries| - 1];
    if i < |entries| - 1 {
      forall j | i < j < |init| ensures !Names(init[j], name) {
        assert init[j] == entries[j];
      }
      FoldLastWins(init, i, name);
      assert !Names(entries[|entries| - 1], name);
    }
  }

  /** Empty output, empty map. */
  lemma ParseEmpty()
    ensures Parse("") == map[]
  {
    assert Trim("") == "";
    assert Split("", '\n') == [[]];
  }

  /** `web<TAB>running` names `web` with state `running`. */
  lemma WebRunningLine()
    ensures ParseLine("web\trunning") == Some(("web", "running"))
  {
    TrimOfTrimmed("web");
    TrimOfTrimmed("running");
    assert "web" + ['\t'] + "running" == "web\trunning";
    ParseLineFields("web", "running", "");
  }

  /** One line of output, one entry. */
  lemma ParseOneLine()
    ensures Parse("web\trunning\n") == map["web" := "running"]
  {
    OneLineLines();
    EntriesSingle("web\trunning");
    WebRunningLine();
  }

  /** The final line break of that output is trimmed away before splitting. */
  lemma OneLineLines()
    ensures NonEmptyLines("web\trunning\n") == ["web\trunning"]
  {
    var line := "web\trunning";
    assert "web\trunning\n" == line + "\n";
    TrimFinalBreak(line);
    SplitJoin([line], '\n');
  }

  /** The entries of one line are its entry. */
  lemma EntriesSingle(a: string)
    ensures Entries([a]) == [ParseLine(a)]
  {
  }

  /** The lines of an output with an empty line in the middle. */
  lemma TwoLinesWithGap(first: string, second: string)
    requires first != [] && second != [] && '\n' !in first && '\n' !in second
    requires !IsJsSpace(first[0]) && !IsJsSpace(second[|second| - 1])
    ensures NonEmptyLines(first + "\n\n" + second + "\n") == [first, second]
  {
    var trimmed := first + "\n\n" + second;
    assert trimmed[0] == first[0] && trimmed[|trimmed| - 1] == second[|second| - 1];
    TrimFinalBreak(trimmed);
    var parts := [first, "", second];
    assert parts[1..] == ["", second] && parts[1..][1..] == [second];
    assert Join(parts[1..], '\n') == "" + "\n" + second;
    assert trimmed == Join(parts, '\n');
    SplitJoin(parts, '\n');
    assert parts[1..] == [""] + [second];
    assert NonEmpty(parts) == [first] + NonEmpty(["", second]);
    assert ["", second][1..] == [second];
  }

  /** `web<TAB>exited` names `web` with state `exited`. */
  lemma WebExitedLine()
    ensures ParseLine("web\texited") == Some(("web", "exited"))
  {
    TrimOfTrimmed("web");
    TrimOfTrimmed("exited");
    assert "web" + ['\t'] + "exited" == "web\texited";
    ParseLineFields("web", "exited", "");
  }

  /** Two lines for one name with an empty line between: the empty line is dropped
      and the later state wins. */
  lemma ParseLastWins()
    ensures Parse("web\trunning\n\nweb\texited\n") == map["web" := "exited"]
  {
    LastWinsLines();
    LastWinsEntries();
    LastWinsFold();
  }

  /** The empty middle line of that output is dropped. */
  lemma LastWinsLines()
    ensures NonEmptyLines("web\trunning\n\nweb\texited\n") == ["web\trunning", "web\texited"]
  {
    var first, second := "web\trunning", "web\texited";
    assert "web\trunning\n\nweb\texited\n" == first + "\n\n" + second + "\n";
    TwoLinesWithGap(first, second);
  }

  /** Both lines of that output name `web`. */
  lemma LastWinsEntries()
    ensures Entries(["web\trunning", "web\texited"]) == [Some(("web", "running")), Some(("web", "exited"))]
  {
    EntriesPair("web\trunning", "web\texited");
    WebRunningLine();
    WebExitedLine();
  }

  /** The entries of two lines are the entries of each. */
  lemma EntriesPair(a: string, b: string)
    ensures Entries([a, b]) == [ParseLine(a), ParseLine(b)]
  {
  }

  /** The later of two entries for one name is the one kept. */
  lemma LastWinsFold()
    ensures Fold([Some(("web", "running")), Some(("web", "exited"))]) == map["web" := "exited"]
  {
    var es := [Some(("web", "running")), Some(("web", "exited"))];
    assert es[..1] == [Some(("web", "running"))];
  }

  /** A line whose first field is only spaces is not dropped: it maps the empty name. */
  lemma BlankNameLine()
    ensures ParseLine(" \trunning") == Some(("", "running"))
  {
    TrimOfTrimmed("running");
    assert Trim(" ") == "";
    assert " " + ['\t'] + "running" == " \trunning";
    ParseLineFields(" ", "running", "");
  }
}
