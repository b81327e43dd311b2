/**
 * The meaning of a scenario: what one command does to the stage when it is
 * executed live, what it does when the stage is rebuilt after a load, and
 * where a chain of silent commands stops.
 */
module Interpreter {
  import opened Strings
  import opened Assets
  import opened Catalog
  import opened Portraits

  /**
   * What is on screen: the game container's background image, the
   * portraits, the overlay image and whether it is displayed, the dialogue
   * text and the name box.
   */
  datatype Stage = Stage(background: string, portraits: seq<Portrait>, overlayUrl: string,
                         overlayShown: bool, dialogue: string, speaker: string)

  /** The part of the stage that a rebuild restores. */
  datatype Scene = Scene(background: string, looks: seq<Look>)

  function SceneOf(st: Stage): Scene {
    Scene(st.background, Looks(st.portraits))
  }

  /** What the interpreter reads besides the scenario. */
  datatype Context = Context(characters: Characters, playerName: string, enc: Encoder)

  const Placeholder: string := "%PLAYER_NAME%"

  /** `template.replace('%PLAYER_NAME%', playerName)`, read literally. */
  function Fill(template: string, playerName: string): string {
    ReplaceFirst(template, Placeholder, playerName)
  }

  /** The name box of a `text` line spoken by `speakerId`. */
  function SpeakerName(ctx: Context, speakerId: string): string {
    if speakerId == Narrator then ""
    else Fill(if speakerId in ctx.characters then ctx.characters[speakerId].name else speakerId, ctx.playerName)
  }

  /** The commands that wait for the player before the next one runs. */
  predicate Pauses(c: Command) {
    c.command == "text" || c.command == "img_show"
  }

  /** The commands whose effect a rebuild replays. */
  predicate SetsScene(c: Command) {
    c.command == "bg_change" || c.command == "char_show" || c.command == "char_hide"
  }

  /** One command executed live (the `switch` of `processLine`). */
  function Step(st: Stage, ctx: Context, c: Command): Stage {
    if c.command == "text" then
      st.(speaker := SpeakerName(ctx, c.param1), dialogue := Fill(c.param2, ctx.playerName),
          portraits := Spotlit(st.portraits, c.param1))
    else if c.command == "char_show" then
      st.(portraits := ShowPortrait(st.portraits, ctx.characters, ctx.enc, c.param1, c.param2, c.param3))
    else if c.command == "char_hide" then
      st.(portraits := RemovePortrait(st.portraits, c.param1))
    else if c.command == "bg_change" then
      st.(background := ResolveBgUrl(ctx.enc, c.param1))
    else if c.command == "img_show" then
      st.(overlayUrl := ResolveBgUrl(ctx.enc, c.param1), overlayShown := true)
    else if c.command == "img_hide" then
      st.(overlayShown := false)
    else
      st
  }

  /** One command replayed by `rebuildStage`. */
  function ReplayStep(st: Stage, ctx: Context, c: Command): Stage {
    if c.command == "bg_change" then
      st.(background := ResolveBgUrl(ctx.enc, c.param1))
    else if c.command == "char_show" then
      st.(portraits := ShowPortrait(st.portraits, ctx.characters, ctx.enc, c.param1, c.param2, c.param3))
    else if c.command == "char_hide" then
      st.(portraits := RemovePortrait(st.portraits, c.param1))
    else
      st
  }

  /**
   * Nothing else changes: each part of the stage is changed only by the
   * commands that are about it, and the portrait ids stay unique.
   */
  lemma StepFrame(st: Stage, ctx: Context, c: Command)
    ensures var r := Step(st, ctx, c);
      && (UniqueIds(st.portraits) ==> UniqueIds(r.portraits))
      && (r.background != st.background ==> c.command == "bg_change")
      && (Looks(r.portraits) != Looks(st.portraits) ==> c.command == "char_show" || c.command == "char_hide")
      && (r.portraits != st.portraits ==> c.command == "char_show" || c.command == "char_hide" || c.command == "text")
      && ((r.overlayUrl, r.overlayShown) != (st.overlayUrl, st.overlayShown) ==>
            c.command == "img_show" || c.command == "img_hide")
      && ((r.dialogue, r.speaker) != (st.dialogue, st.speaker) ==> c.command == "text")
  {
    if c.command == "char_hide" && UniqueIds(st.portraits) {
      RemovePortraitUnique(st.portraits, c.param1);
    }
  }

  /** The commands `cmds`, executed live one after another. */
  function Exec(st: Stage, ctx: Context, cmds: seq<Command>): Stage
    decreases |cmds|
  {
    if cmds == [] then st else Step(Exec(st, ctx, cmds[..|cmds| - 1]), ctx, cmds[|cmds| - 1])
  }

  /** The commands `cmds`, replayed one after another. */
  function Replay(st: Stage, ctx: Context, cmds: seq<Command>): Stage
    decreases |cmds|
  {
    if cmds == [] then st else ReplayStep(Replay(st, ctx, cmds[..|cmds| - 1]), ctx, cmds[|cmds| - 1])
  }

  /**
   * Where one call of `processLine` started at `line` stops: just after the
   * first pausing command, or at the end of the scenario.
   */
  function ChainEnd(s: seq<Command>, line: nat): (r: nat)
    requires line <= |s|
    decreases |s| - line
    ensures line <= r <= |s|
    ensures line < |s| ==> line < r
  {
    if line == |s| then line
    else if Pauses(s[line]) then line + 1
    else ChainEnd(s, line + 1)
  }

  /**
   * The chain from `line` runs every command before `ChainEnd` without a
   * pause, and it stops early only just after a pausing command.
   */
  lemma {:induction false} ChainEndStops(s: seq<Command>, line: nat)
    requires line <= |s|
    ensures forall j :: line <= j < ChainEnd(s, line) - 1 ==> !Pauses(s[j])
    ensures ChainEnd(s, line) < |s| ==> Pauses(s[ChainEnd(s, line) - 1])
    decreases |s| - line
  {
    if line < |s| && !Pauses(s[line]) {
      ChainEndStops(s, line + 1);
    }
  }

  /** A chain with no pausing command runs to the end of the scenario. */
  lemma SilentRunsToEnd(s: seq<Command>, line: nat)
    requires line <= |s|
    requires forall j :: line <= j < |s| ==> !Pauses(s[j])
    ensures ChainEnd(s, line) == |s|
  {
    ChainEndStops(s, line);
  }

  /** Commands outside the known set leave the stage as it is. */
  lemma UnknownCommandSkipped(st: Stage, ctx: Context, c: Command)
    requires c.command !in {"text", "char_show", "char_hide", "bg_change", "img_show", "img_hide"}
    ensures Step(st, ctx, c) == st && ReplayStep(st, ctx, c) == st
  {
  }

  /** The `text` line: name box, dialogue and the speaker highlight. */
  lemma TextStep(st: Stage, ctx: Context, c: Command)
    requires c.command == "text"
    ensures c.param1 == Narrator ==> Step(st, ctx, c).speaker == ""
    ensures c.param1 != Narrator && c.param1 in ctx.characters ==>
              Step(st, ctx, c).speaker == Fill(ctx.characters[c.param1].name, ctx.playerName)
    ensures c.param1 != Narrator && c.param1 !in ctx.characters ==>
              Step(st, ctx, c).speaker == Fill(c.param1, ctx.playerName)
    ensures Step(st, ctx, c).dialogue == Fill(c.param2, ctx.playerName)
    ensures |Step(st, ctx, c).portraits| == |st.portraits|
    ensures forall j :: 0 <= j < |st.portraits| ==>
              Step(st, ctx, c).portraits[j] == st.portraits[j].(inactive := st.portraits[j].id != c.param1)
  {
  }

  /**
   * The first placeholder of a template is replaced by the player's name,
   * and the text around it is kept.
   */
  lemma FillReplacesFirst(pre: string, post: string, playerName: string)
    requires forall j: nat :: j < |pre| ==> !OccursAt(pre + Placeholder + post, Placeholder, j)
    ensures Fill(pre + Placeholder + post, playerName) == pre + playerName + post
  {
    var s, n := pre + Placeholder + post, |pre|;
    assert s[n..n + |Placeholder|] == Placeholder;
    assert FirstAt(s, Placeholder, n);
    assert s[..n] == pre && s[n + |Placeholder|..] == post;
  }

  /** A template that is just the placeholder renders as the player's name. */
  lemma FillPlaceholder(playerName: string)
    ensures Fill(Placeholder, playerName) == playerName
  {
    assert FirstAt(Placeholder, Placeholder, 0);
  }

  /**
   * A player name containing `$&` is not shown as typed by the JavaScript
   * replace: the `$&` is expanded to the matched placeholder, so the name
   * template `%PLAYER_NAME%` with the name `$&` renders as `%PLAYER_NAME%`,
   * where the literal replacement renders `$&`.
   */
  lemma DollarNameExpanded()
    ensures JsReplaceFirst(Placeholder, Placeholder, "$&") == Placeholder
    ensures Fill(Placeholder, "$&") == "$&"
  {
    assert FirstAt(Placeholder, Placeholder, 0);
    var sub := Substitution("$&", Placeholder, "", "");
    assert "$&"[2..] == "";
    assert sub == Placeholder;
  }

  /** Only the first placeholder is replaced. */
  lemma FillFirstOnly(playerName: string)
    ensures Fill(Placeholder + Placeholder, playerName) == playerName + Placeholder
  {
    var s := Placeholder + Placeholder;
    var n := |Placeholder|;
    assert s[0..n] == Placeholder;
    assert FirstAt(s, Placeholder, 0);
    assert s[..0] == [] && s[n..] == Placeholder;
  }

  /** The rebuild replays exactly the `bg_change`, `char_show` and `char_hide` branches. */
  lemma ReplayStepIsStep(st: Stage, ctx: Context, c: Command)
    ensures SetsScene(c) ==> ReplayStep(st, ctx, c) == Step(st, ctx, c)
    ensures !SetsScene(c) ==> ReplayStep(st, ctx, c) == st
  {
  }

  /** A replayed step and a live step agree on the scene when they start from the same scene. */
  lemma StepScene(a: Stage, b: Stage, ctx: Context, c: Command)
    requires SceneOf(a) == SceneOf(b)
    ensures SceneOf(ReplayStep(a, ctx, c)) == SceneOf(Step(b, ctx, c))
  {
    if c.command == "char_show" {
      ShowPortraitByLooks(a.portraits, b.portraits, ctx.characters, ctx.enc, c.param1, c.param2, c.param3);
    } else if c.command == "char_hide" {
      RemovePortraitByLooks(a.portraits, b.portraits, c.param1);
    }
  }

  /** The scene after a live step depends only on the scene before it. */
  lemma StepSceneCongruent(a: Stage, b: Stage, ctx: Context, c: Command)
    requires SceneOf(a) == SceneOf(b)
    ensures SceneOf(Step(a, ctx, c)) == SceneOf(Step(b, ctx, c))
  {
    StepScene(a, a, ctx, c);
    StepScene(a, b, ctx, c);
  }

  /**
   * Replay agrees with live execution: replaying a list of commands gives the
   * same background and the same portraits (ids, images, positions, order)
   * as executing it live from the same scene.
   */
  lemma {:induction false} ReplayAgreesWithExec(a: Stage, b: Stage, ctx: Context, cmds: seq<Command>)
    requires SceneOf(a) == SceneOf(b)
    ensures SceneOf(Replay(a, ctx, cmds)) == SceneOf(Exec(b, ctx, cmds))
    decreases |cmds|
  {
    if cmds != [] {
      var n := |cmds| - 1;
      ReplayAgreesWithExec(a, b, ctx, cmds[..n]);
      StepScene(Replay(a, ctx, cmds[..n]), Exec(b, ctx, cmds[..n]), ctx, cmds[n]);
    }
  }

  /** Live execution from two stages with the same scene keeps them in the same scene. */
  lemma {:induction false} ExecSceneCongruent(a: Stage, b: Stage, ctx: Context, cmds: seq<Command>)
    requires SceneOf(a) == SceneOf(b)
    ensures SceneOf(Exec(a, ctx, cmds)) == SceneOf(Exec(b, ctx, cmds))
    decreases |cmds|
  {
    if cmds != [] {
      var n := |cmds| - 1;
      ExecSceneCongruent(a, b, ctx, cmds[..n]);
      StepSceneCongruent(Exec(a, ctx, cmds[..n]), Exec(b, ctx, cmds[..n]), ctx, cmds[n]);
    }
  }

  lemma SliceSnoc(s: seq<Command>, i: nat, j: nat)
    requires i <= j < |s|
    ensures s[i..j + 1] == s[i..j] + [s[j]]
  {
  }

  lemma ExecSnoc(st: Stage, ctx: Context, xs: seq<Command>, x: Command)
    ensures Exec(st, ctx, xs + [x]) == Step(Exec(st, ctx, xs), ctx, x)
  {
    assert (xs + [x])[..|xs|] == xs;
  }

  lemma ReplaySnoc(st: Stage, ctx: Context, xs: seq<Command>, x: Command)
    ensures Replay(st, ctx, xs + [x]) == ReplayStep(Replay(st, ctx, xs), ctx, x)
  {
    assert (xs + [x])[..|xs|] == xs;
  }

  /** Executing two lists live is executing their concatenation. */
  lemma {:induction false} ExecAppend(st: Stage, ctx: Context, xs: seq<Command>, ys: seq<Command>)
    ensures Exec(st, ctx, xs + ys) == Exec(Exec(st, ctx, xs), ctx, ys)
    decreases |ys|
  {
    if ys == [] {
      assert xs + ys == xs;
    } else {
      var n := |ys| - 1;
      assert (xs + ys)[..|xs + ys| - 1] == xs + ys[..n];
      ExecAppend(st, ctx, xs, ys[..n]);
    }
  }

  /** Live execution keeps the portrait ids unique. */
  lemma {:induction false} ExecUnique(st: Stage, ctx: Context, cmds: seq<Command>)
    requires UniqueIds(st.portraits)
    ensures UniqueIds(Exec(st, ctx, cmds).portraits)
    decreases |cmds|
  {
    if cmds != [] {
      ExecUnique(st, ctx, cmds[..|cmds| - 1]);
      StepFrame(Exec(st, ctx, cmds[..|cmds| - 1]), ctx, cmds[|cmds| - 1]);
    }
  }

  /**
   * A rebuild restores neither the overlay nor the dialogue nor the name box:
   * they stay as they were before it.
   */
  lemma {:induction false} ReplayKeepsText(st: Stage, ctx: Context, cmds: seq<Command>)
    ensures var r := Replay(st, ctx, cmds);
      r.overlayUrl == st.overlayUrl && r.overlayShown == st.overlayShown &&
      r.dialogue == st.dialogue && r.speaker == st.speaker
    decreases |cmds|
  {
    if cmds != [] {
      ReplayKeepsText(st, ctx, cmds[..|cmds| - 1]);
    }
  }

  /** Replaying `pre`, then executing `post` live, shows what executing both live shows. */
  lemma ReplayThenExec(st: Stage, ctx: Context, pre: seq<Command>, post: seq<Command>)
    ensures SceneOf(Exec(Replay(st, ctx, pre), ctx, post)) == SceneOf(Exec(st, ctx, pre + post))
  {
    var replayed, played := Replay(st, ctx, pre), Exec(st, ctx, pre);
    ReplayAgreesWithExec(st, st, ctx, pre);
    ExecSceneCongruent(replayed, played, ctx, post);
    ExecAppend(st, ctx, pre, post);
  }

  /**
   * Resuming at `k` (rebuild of `[0, k)`, then one `processLine`) shows the
   * same scene as playing live from the start to the same point.
   */
  lemma ResumeAgreesWithPlay(st: Stage, ctx: Context, s: seq<Command>, k: nat)
    requires k < |s|
    ensures var e := ChainEnd(s, k);
      SceneOf(Exec(Replay(st, ctx, s[..k]), ctx, s[k..e])) == SceneOf(Exec(st, ctx, s[..e]))
  {
    var e := ChainEnd(s, k);
    ReplayThenExec(st, ctx, s[..k], s[k..e]);
    SliceJoin(s, k, e);
  }

  lemma SliceJoin(s: seq<Command>, k: nat, e: nat)
    requires k <= e <= |s|
    ensures s[..k] + s[k..e] == s[..e]
  {
  }
}
