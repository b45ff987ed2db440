/**
 * The panel indicator of gnome-extension/extension.js, reduced to the state its
 * poll logic changes: the entries of the container menu section, the
 * `_containerItems` map from name to entry, and the panel icon.
 *
 * `_updateFromOutput` walks the watch list in order and shows one entry per
 * name (duplicates included); an entry is running iff the parsed state is
 * exactly "running", and its status text is the parsed state, or "not found"
 * when the name is absent or its state is empty. The icon is the OK icon iff
 * every entry is running, so an empty watch list gives the OK icon.
 * `_setError` replaces the section with one error line and forces the error
 * icon; `_refresh` sends every failure of the `docker ps` run there.
 */
module Status {
  import opened Text
  import opened DockerState
  import opened Subprocess

  /** The panel icon: `emblem-default-symbolic` / `status-ok`, or
      `dialog-error-symbolic` / `status-error`. */
  datatype Icon = StatusOk | StatusError

  /** An entry of the container menu section. */
  datatype MenuItem =
    | ContainerItem(name: string, running: bool, statusText: string)
    | ErrorItem(message: string)

  /** The entry shown for watched name `name`, given the parsed `docker ps` map. */
  function StatusOf(name: string, dockerState: map<string, string>): MenuItem
  {
    var state := if name in dockerState then Some(dockerState[name]) else None;
    ContainerItem(
      name,
      state == Some("running"),
      if state == None || state == Some("") then "not found" else state.value)
  }

  /** The section after `_updateFromOutput`: one entry per watched name, in order. */
  function Reconcile(monitored: seq<string>, dockerState: map<string, string>): (r: seq<MenuItem>)
    ensures |r| == |monitored|
    ensures forall k :: 0 <= k < |r| ==> r[k].ContainerItem? && r[k].name == monitored[k]
    ensures forall item :: item in r ==> item.ContainerItem? && item.name in monitored
  {
    seq(|monitored|, k requires 0 <= k < |monitored| => StatusOf(monitored[k], dockerState))
  }

  /** Every entry is a running container entry. */
  predicate AllRunning(items: seq<MenuItem>) {
    forall k :: 0 <= k < |items| ==> items[k].ContainerItem? && items[k].running
  }

  lemma AllRunningAppend(items: seq<MenuItem>, item: MenuItem)
    ensures AllRunning(items + [item]) <==> AllRunning(items) && item.ContainerItem? && item.running
  {
    if AllRunning(items + [item]) {
      forall k | 0 <= k < |items| ensures items[k].ContainerItem? && items[k].running {
        assert items[k] == (items + [item])[k];
      }
      assert item == (items + [item])[|items|];
    }
  }

  /** One more watched name: one more entry at the end of the section, and that
      entry recorded for its name. */
  lemma ReconcileStep(monitored: seq<string>, i: nat, dockerState: map<string, string>)
    requires i < |monitored|
    ensures Reconcile(monitored[..i + 1], dockerState)
      == Reconcile(monitored[..i], dockerState) + [StatusOf(monitored[i], dockerState)]
    ensures (map n | n in monitored[..i + 1] :: StatusOf(n, dockerState))
      == (map n | n in monitored[..i] :: StatusOf(n, dockerState))[monitored[i] := StatusOf(monitored[i], dockerState)]
  {
    assert monitored[..i + 1] == monitored[..i] + [monitored[i]];
  }

  /** The running flag and status text of a watched name, read off the parsed map. */
  lemma StatusOfMeaning(name: string, dockerState: map<string, string>)
    ensures StatusOf(name, dockerState).ContainerItem?
    ensures StatusOf(name, dockerState).name == name
    ensures StatusOf(name, dockerState).running <==> name in dockerState && dockerState[name] == "running"
    ensures StatusOf(name, dockerState).statusText == "not found" <==>
      name !in dockerState || dockerState[name] in {"", "not found"}
    ensures name in dockerState && dockerState[name] != "" ==>
      StatusOf(name, dockerState).statusText == dockerState[name]
  {
  }

  /** The aggregate: all entries run iff every watched name is reported exactly
      "running"; vacuously so for an empty watch list. */
  lemma AllRunningIff(monitored: seq<string>, dockerState: map<string, string>)
    ensures AllRunning(Reconcile(monitored, dockerState)) <==>
      forall n :: n in monitored ==> n in dockerState && dockerState[n] == "running"
  {
    var items := Reconcile(monitored, dockerState);
    if AllRunning(items) {
      forall n | n in monitored ensures n in dockerState && dockerState[n] == "running" {
        var k :| 0 <= k < |monitored| && monitored[k] == n;
        assert items[k].running;
      }
    }
  }

  /** From parsed lines to entry: a watched name shows as running iff some line
      names it and the last such line's state is exactly "running". */
  lemma RunningFromEntries(es: seq<Option<(string, string)>>, name: string)
    ensures StatusOf(name, Fold(es)).running <==>
      exists j :: 0 <= j < |es| && LastNaming(es, j, name) && es[j].value.1 == "running"
  {
    StatusOfMeaning(name, Fold(es));
    FoldHas(es, name);
    if name in Fold(es) {
      forall j | 0 <= j < |es| && LastNaming(es, j, name) ensures es[j].value.1 == Fold(es)[name] {
        FoldLastWins(es, j, name);
      }
      var j := LastIndexNaming(es, name);
      FoldLastWins(es, j, name);
    }
  }

  /** A watched name shows "not found" iff no line names it, or the last line that
      names it has an empty (or literally "not found") state. */
  lemma NotFoundFromEntries(es: seq<Option<(string, string)>>, name: string)
    ensures StatusOf(name, Fold(es)).statusText == "not found" <==>
      || (forall j :: 0 <= j < |es| ==> !Names(es[j], name))
      || (exists j :: 0 <= j < |es| && LastNaming(es, j, name) && es[j].value.1 in {"", "not found"})
  {
    StatusOfMeaning(name, Fold(es));
    FoldHas(es, name);
    if name in Fold(es) {
      forall j | 0 <= j < |es| && LastNaming(es, j, name) ensures es[j].value.1 == Fold(es)[name] {
        FoldLastWins(es, j, name);
      }
      var j := LastIndexNaming(es, name);
      FoldLastWins(es, j, name);
    }
  }

  /** Entry `j` is the last of `es` that names `name`. */
  predicate LastNaming(es: seq<Option<(string, string)>>, j: nat, name: string)
    requires j < |es|
  {
    Names(es[j], name) && forall k :: j < k < |es| ==> !Names(es[k], name)
  }

  /** The index of the last entry naming `name`, when there is one. */
  function LastIndexNaming(es: seq<Option<(string, string)>>, name: string): (j: nat)
    requires exists k :: 0 <= k < |es| && Names(es[k], name)
    ensures j < |es| && LastNaming(es, j, name)
  {
    if Names(es[|es| - 1], name) then |es| - 1
    else
      var j := LastIndexNaming(es[..|es| - 1], name);
      assert es[..|es| - 1][j] == es[j];
      j
  }

  /** End to end: `web<TAB>running` for a watch list of `web` shows one running
      entry and the OK icon. */
  lemma RunningWebShown()
    ensures Reconcile(["web"], Parse("web\trunning\n")) == [ContainerItem("web", true, "running")]
    ensures AllRunning(Reconcile(["web"], Parse("web\trunning\n")))
  {
    ParseOneLine();
  }

  /** A watched name the output does not mention shows "not found", is not running,
      and so turns the icon to the error icon. */
  lemma MissingNameShown()
    ensures Reconcile(["web", "db"], map["web" := "running"])
      == [ContainerItem("web", true, "running"), ContainerItem("db", false, "not found")]
    ensures !AllRunning(Reconcile(["web", "db"], map["web" := "running"]))
  {
    var items := Reconcile(["web", "db"], map["web" := "running"]);
    assert items[1] == ContainerItem("db", false, "not found");
  }

  /** The panel indicator (`DockerMonitorIndicator`), as far as polling changes it. */
  class Indicator {
    /** The entries of `_containerSection`. */
    var section: seq<MenuItem>
    /** `_containerItems`: the entry shown for each watched name. */
    var containerItems: map<string, MenuItem>
    /** `_icon`. */
    var icon: Icon

    /** A new indicator shows the OK icon and no entries until its first poll ends. */
    constructor ()
      ensures section == [] && containerItems == map[] && icon == StatusOk
    {
      section := [];
      containerItems := map[];
      icon := StatusOk;
    }

    /** `_updateFromOutput(stdout)`, with the watch list `monitored` read from settings:
        parse the output into `dockerState`, clear the section and `_containerItems`,
        walk the watch list folding `allRunning`, then set the icon. */
    method UpdateFromOutput(monitored: seq<string>, stdout: string)
      modifies this
      ensures section == Reconcile(monitored, Parse(stdout))
      ensures containerItems == map n | n in monitored :: StatusOf(n, Parse(stdout))
      ensures icon == if AllRunning(section) then StatusOk else StatusError
    {
      var dockerState := ParseOutput(stdout);

      section := [];
      containerItems := map[];

      var allRunning := true;
      for i := 0 to |monitored|
        invariant section == Reconcile(monitored[..i], dockerState)
        invariant containerItems == map n | n in monitored[..i] :: StatusOf(n, dockerState)
        invariant allRunning == AllRunning(section)
      {
        var name := monitored[i];
        var state := if name in dockerState then Some(dockerState[name]) else None;
        var isRunning := state == Some("running");

        if !isRunning {
          allRunning := false;
        }

        var statusText := if state == None || state == Some("") then "not found" else state.value;
        var item := ContainerItem(name, isRunning, statusText);
        assert item == StatusOf(name, dockerState);
        AllRunningAppend(section, item);
        section := section + [item];
        containerItems := containerItems[name := item];
        ReconcileStep(monitored, i, dockerState);
      }
      assert monitored[..|monitored|] == monitored;

      if allRunning {
        icon := StatusOk;
      } else {
        icon := StatusError;
      }
    }

    /** `_setError(message)`: one error line, error icon; `_containerItems` is left as is. */
    method SetError(message: string)
      modifies this
      ensures section == [ErrorItem(message)]
      ensures icon == StatusError
      ensures containerItems == old(containerItems)
    {
      section := [ErrorItem(message)];
      icon := StatusError;
    }

    /** The end of one `_refresh`: a successful exit goes to `_updateFromOutput`,
        every failure to `_setError`. */
    method Refresh(monitored: seq<string>, outcome: Outcome)
      modifies this
      ensures outcome.Succeeded() ==>
        && section == Reconcile(monitored, Parse(outcome.stdout))
        && containerItems == (map n | n in monitored :: StatusOf(n, Parse(outcome.stdout)))
        && icon == (if AllRunning(section) then StatusOk else StatusError)
      ensures !outcome.Succeeded() ==>
        && section == [ErrorItem(FailureMessage(outcome))]
        && icon == StatusError
        && containerItems == old(containerItems)
    {
      match outcome
      case SpawnFailed(message) => SetError(message);
      case FinishFailed(message) => SetError(message);
      case Exited(successful, stdout) =>
        if successful {
          UpdateFromOutput(monitored, stdout);
        } else {
          SetError("docker command failed");
        }
    }
  }

  /** The message `_refresh` passes to `_setError` for a failed run. */
  function FailureMessage(outcome: Outcome): (message: string)
    requires !outcome.Succeeded()
    ensures outcome.Exited? ==> message == "docker command failed"
    ensures outcome.SpawnFailed? || outcome.FinishFailed? ==> message == outcome.message
  {
    match outcome
    case SpawnFailed(message) => message
    case FinishFailed(message) => message
    case Exited(_, _) => "docker command failed"
  }
}
