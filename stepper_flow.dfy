/**
 * arrangements/stepper-flow.tsx: `StepperFlow` draws a numbered vertical list
 * of steps, a connector under every step but the last, and each step's
 * detail line when it has one.
 */
module StepperFlow {
  import opened Wrappers
  import opened Strings

  datatype Step = Step(title: string, detail: Option<string>)

  /** The two size profiles `compact` chooses between (text, circle and detail sizes). */
  datatype Profile = Compact | Regular

  datatype StepRow = StepRow(number: nat, title: string, connector: bool, detail: Option<string>)

  datatype Stepper = Stepper(title: string, profile: Profile, rows: seq<StepRow>)

  /** Step `i` of `count` steps: the number `i + 1`, a connector when `i < count - 1`. */
  function RowOf(s: Step, i: nat, count: nat): StepRow {
    StepRow(i + 1, s.title, i < count - 1, WhenTruthy(s.detail))
  }

  /** `steps.map((s, i) => ...)`. */
  function StepRows(steps: seq<Step>): seq<StepRow>
  {
    seq(|steps|, i requires 0 <= i < |steps| => RowOf(steps[i], i, |steps|))
  }

  /** `<StepperFlow steps title compact />`. */
  function Render(steps: seq<Step>, title: string, compact: bool): Stepper {
    Stepper(title, if compact then Compact else Regular, StepRows(steps))
  }

  /** The defaults: title "Setup Flow", compact profile. */
  function RenderDefault(steps: seq<Step>): (s: Stepper)
    ensures s.title == "Setup Flow" && s.profile == Compact && s.rows == StepRows(steps)
  {
    Render(steps, "Setup Flow", true)
  }

  /** How many rows draw a connector. */
  function Connectors(rows: seq<StepRow>): nat {
    if rows == [] then 0 else Connectors(rows[..|rows| - 1]) + (if rows[|rows| - 1].connector then 1 else 0)
  }

  lemma {:induction false} AllConnected(rows: seq<StepRow>)
    requires forall i :: 0 <= i < |rows| ==> rows[i].connector
    ensures Connectors(rows) == |rows|
    decreases |rows|
  {
    if rows != [] {
      AllConnected(rows[..|rows| - 1]);
    }
  }

  /**
   * The rows count 1, 2, 3, ... in step order; every step but the last is
   * followed by a connector, so there are `|steps| - 1` connectors (none for
   * no steps); titles and details come from the step of the same position.
   */
  lemma StepsNumbered(steps: seq<Step>)
    ensures var rows := StepRows(steps);
      && |rows| == |steps|
      && (|rows| > 0 ==> rows[0].number == 1)
      && (forall i :: 0 < i < |rows| ==> rows[i].number == rows[i - 1].number + 1)
      && (forall i :: 0 <= i < |rows| ==> (rows[i].connector <==> i != |rows| - 1))
      && (forall i :: 0 <= i < |rows| ==> rows[i].title == steps[i].title)
      && (forall i :: 0 <= i < |rows| ==> rows[i].detail == WhenTruthy(steps[i].detail))
      && Connectors(rows) == if steps == [] then 0 else |steps| - 1
  {
    var rows := StepRows(steps);
    if rows != [] {
      var front := rows[..|rows| - 1];
      AllConnected(front);
      assert Connectors(rows) == Connectors(front);
    }
  }

  /** The connector rule looks only at the position: appending a step turns the old last row's connector on. */
  lemma AppendStep(steps: seq<Step>, s: Step)
    requires steps != []
    ensures var before, after := StepRows(steps), StepRows(steps + [s]);
      && after[..|steps|] == before[|steps| - 1 := before[|steps| - 1].(connector := true)]
      && after[|steps|] == RowOf(s, |steps|, |steps| + 1)
  {
    var before, after := StepRows(steps), StepRows(steps + [s]);
    var expected := before[|steps| - 1 := before[|steps| - 1].(connector := true)];
    forall i | 0 <= i < |steps| ensures after[i] == expected[i] {
      assert (steps + [s])[i] == steps[i];
    }
  }

  const Phase1Steps: seq<Step> := [
    Step("Install Tailscale", Some("curl -fsSL https://tailscale.com/install.sh | sh")),
    Step("Enable SSH", Some("sudo tailscale up --ssh")),
    Step("Start tmux Session", Some("tmux new-session -d -s claude")),
    Step("Install Claude Code", Some("npm install -g @anthropic-ai/claude-code")),
    Step("Connect from Mobile", Some("Use Termius with Tailscale IP"))]

  const Phase2Steps: seq<Step> := [
    Step("Provision Ubuntu Server", Some("22.04 or 24.04 LTS")),
    Step("Create User Accounts", Some("useradd with proper groups")),
    Step("Configure Tailscale ACLs", Some("Access control per user")),
    Step("Setup Shared Config", Some("/etc/claude-code/CLAUDE.md")),
    Step("Enable Systemd Services", Some("Auto-start tmux sessions")),
    Step("Install Netdata", Some("Monitoring dashboard"))]

  function Phase1SetupFlow(): Stepper { Render(Phase1Steps, "Phase 1: Quick Start", true) }
  function Phase2SetupFlow(): Stepper { Render(Phase2Steps, "Phase 2: Team Server Setup", true) }

  /** The presets: 5 and 6 numbered steps in the compact profile, 4 and 5 connectors, every step with its detail. */
  lemma Presets()
    ensures var p := Phase1SetupFlow();
      && p.profile == Compact && |p.rows| == 5 && Connectors(p.rows) == 4
      && forall i :: 0 <= i < 5 ==> p.rows[i].number == i + 1 && p.rows[i].detail == Phase1Steps[i].detail
    ensures var p := Phase2SetupFlow();
      && p.profile == Compact && |p.rows| == 6 && Connectors(p.rows) == 5
      && forall i :: 0 <= i < 6 ==> p.rows[i].number == i + 1 && p.rows[i].detail == Phase2Steps[i].detail
  {
    StepsNumbered(Phase1Steps);
    StepsNumbered(Phase2Steps);
    forall i | 0 <= i < 5 ensures Phase1Steps[i].detail.Some? && Phase1Steps[i].detail.value != "" {}
    forall i | 0 <= i < 6 ensures Phase2Steps[i].detail.Some? && Phase2Steps[i].detail.value != "" {}
  }
}
