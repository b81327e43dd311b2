/**
 * The running game: the closure state of `mainGameInit` (scenario,
 * character catalog, program counter, player name) together with the stage
 * elements it changes in place.
 */
module Engine {
  import opened Wrappers
  import opened Assets
  import opened Catalog
  import opened Portraits
  import opened Interpreter

  class Session {
    const enc: Encoder
    var scenario: seq<Command>
    var characters: Characters
    var currentLine: nat
    var playerName: string

    var background: string
    var portraits: seq<Portrait>
    var overlayUrl: string
    var overlayShown: bool
    var dialogue: string
    var speaker: string

    /** At most one `char_<id>` element per character. */
    ghost predicate Valid()
      reads this
    {
      UniqueIds(portraits)
    }

    function StageOf(): Stage
      reads this
    {
      Stage(background, portraits, overlayUrl, overlayShown, dialogue, speaker)
    }

    function Ctx(): Context
      reads this
    {
      Context(characters, playerName, enc)
    }

    /** A session before `init`: nothing loaded, nothing shown, at line 0. */
    constructor (enc: Encoder)
      ensures Valid()
      ensures this.enc == enc
      ensures scenario == [] && characters == map[] && currentLine == 0 && playerName == ""
      ensures StageOf() == Stage("", [], "", false, "", "")
    {
      this.enc := enc;
      scenario, characters, currentLine, playerName := [], map[], 0, "";
      background, portraits, overlayUrl, overlayShown, dialogue, speaker := "", [], "", false, "", "";
    }

    /**
     * The catalog part of `init`, given what the two fetches returned: sort
     * the scenario, then fold each character record into `characters`.
     */
    method Init(fetchedScenario: seq<Command>, fetchedCharacters: seq<CharRecord>)
      modifies this`scenario, this`characters
      ensures scenario == SortByOrder(fetchedScenario)
      ensures characters == Group(old(characters), fetchedCharacters)
    {
      scenario := SortByOrder(fetchedScenario);
      for i := 0 to |fetchedCharacters|
        invariant characters == Group(old(characters), fetchedCharacters[..i])
        invariant scenario == SortByOrder(fetchedScenario)
      {
        var c := fetchedCharacters[i];
        if c.characterId !in characters {
          characters := characters[c.characterId := CharDef(c.characterName, map[])];
        }
        var d := characters[c.characterId];
        characters := characters[c.characterId := d.(expressions := d.expressions[c.expressionId := c.imageUrl])];
        assert fetchedCharacters[..i + 1][..i] == fetchedCharacters[..i];
      }
      assert fetchedCharacters[..|fetchedCharacters|] == fetchedCharacters;
    }

    /** `updateCharacterImage`: create or update the portrait of `charId`. */
    method UpdateCharacterImage(charId: string, expressionId: string, position: string)
      requires Valid()
      modifies this`portraits
      ensures Valid()
      ensures portraits == ShowPortrait(old(portraits), characters, enc, charId, expressionId, position)
    {
      ghost var ps := portraits;
      var i := FindPortrait(portraits, charId);
      if i.None? {
        portraits := portraits + [Portrait(charId, "", "", false)];
        i := Some(|portraits| - 1);
      }
      var url := PortraitUrl(characters, enc, charId, expressionId);
      portraits := portraits[i.value := portraits[i.value].(url := url)];
      portraits := portraits[i.value := portraits[i.value].(pos := Position(position), inactive := false)];
      assert portraits == ShowPortrait(ps, characters, enc, charId, expressionId, position);
    }

    /**
     * The highlight of a `text` line: add `inactive` to every portrait, then
     * remove it from the speaker's.
     */
    method Spotlight(speakerId: string)
      requires Valid()
      modifies this`portraits
      ensures Valid()
      ensures portraits == Spotlit(old(portraits), speakerId)
    {
      for i := 0 to |portraits|
        invariant |portraits| == |old(portraits)|
        invariant forall j :: 0 <= j < i ==> portraits[j] == old(portraits)[j].(inactive := true)
        invariant forall j :: i <= j < |portraits| ==> portraits[j] == old(portraits)[j]
      {
        portraits := portraits[i := portraits[i].(inactive := true)];
      }
      ghost var dimmed := portraits;
      assert forall j :: 0 <= j < |dimmed| ==> Ids(dimmed)[j] == dimmed[j].id == old(portraits)[j].id;
      var k := FindPortrait(portraits, speakerId);
      if k.Some? {
        portraits := portraits[k.value := portraits[k.value].(inactive := false)];
      }
      ghost var want := Spotlit(old(portraits), speakerId);
      forall j | 0 <= j < |portraits| ensures portraits[j] == want[j] {
        assert want[j] == old(portraits)[j].(inactive := old(portraits)[j].id != speakerId);
        if k.None? {
          assert Ids(dimmed)[j] != speakerId;
        } else if j != k.value {
          assert Ids(dimmed)[k.value] == speakerId;
          if j < k.value {
            assert old(portraits)[j].id != old(portraits)[k.value].id;
          } else {
            assert old(portraits)[k.value].id != old(portraits)[j].id;
          }
        }
      }
      assert portraits == want;
    }

    /**
     * `rebuildStage(targetIndex)`: replay the scene-setting commands of
     * `[0, targetIndex)`. Past the end of the scenario `scenario[i]` is
     * undefined and reading its command throws; `ok` is false then.
     */
    method RebuildStage(targetIndex: nat) returns (ok: bool)
      requires Valid()
      modifies this`background, this`portraits
      ensures Valid()
      ensures ok <==> targetIndex <= |scenario|
      ensures StageOf() == Replay(old(StageOf()), Ctx(), scenario[..if ok then targetIndex else |scenario|])
    {
      ghost var st0, done: seq<Command> := StageOf(), [];
      for i := 0 to targetIndex
        invariant Valid()
        invariant i <= |scenario|
        invariant done == scenario[..i]
        invariant StageOf() == Replay(st0, Ctx(), done)
      {
        if i == |scenario| {
          return false;
        }
        assert scenario[..i + 1] == scenario[..i] + [scenario[i]];
        ReplayLine(st0, done, scenario[i]);
        done := done + [scenario[i]];
      }
      return true;
    }

    /**
     * One round of the `for` loop of `rebuildStage`: replay the background
     * and portrait commands, skip every other one. A stage rebuilt by
     * replaying `done` becomes the stage of `done` followed by `line`.
     */
    method ReplayLine(ghost st0: Stage, ghost done: seq<Command>, line: Command)
      requires Valid()
      requires StageOf() == Replay(st0, Ctx(), done)
      modifies this`background, this`portraits
      ensures Valid()
      ensures StageOf() == Replay(st0, Ctx(), done + [line])
    {
      ReplaySnoc(st0, Ctx(), done, line);
      if line.command == "bg_change" {
        background := ResolveBgUrl(enc, line.param1);
      } else if line.command == "char_show" {
        UpdateCharacterImage(line.param1, line.param2, line.param3);
      } else if line.command == "char_hide" {
        RemovePortraitUnique(portraits, line.param1);
        portraits := RemovePortrait(portraits, line.param1);
      }
    }

    /**
     * `processLine`: at or past the end nothing happens; otherwise execute
     * commands from `currentLine` on, one line each, until a pausing command
     * has run or the scenario is exhausted. The self-recursion of the source
     * is the loop.
     */
    method ProcessLine()
      requires Valid()
      modifies this`currentLine, this`background, this`portraits, this`overlayUrl, this`overlayShown, this`dialogue, this`speaker
      ensures Valid()
      ensures old(currentLine) >= |scenario| ==> currentLine == old(currentLine) && StageOf() == old(StageOf())
      ensures old(currentLine) < |scenario| ==> currentLine == ChainEnd(scenario, old(currentLine))
      ensures old(currentLine) < |scenario| ==>
                StageOf() == Exec(old(StageOf()), Ctx(), scenario[old(currentLine)..currentLine])
    {
      if currentLine >= |scenario| {
        return;  // the end of the story
      }
      ghost var start, st0, ctx := currentLine, StageOf(), Ctx();
      ghost var end: nat, done: seq<Command> := ChainEnd(scenario, start), [];
      ChainEndStops(scenario, start);
      var paused := false;
      while !paused && currentLine < |scenario|
        invariant Valid()
        invariant start <= currentLine <= end
        invariant done == scenario[start..currentLine]
        invariant StageOf() == Exec(st0, ctx, done)
        invariant paused ==> currentLine == end
        invariant !paused ==> currentLine < end || currentLine == |scenario|
        decreases |scenario| - currentLine
      {
        ghost var x := scenario[currentLine];
        SliceSnoc(scenario, start, currentLine);
        paused := Advance(st0, done);
        done := done + [x];
      }
    }

    /**
     * One round of `processLine` without the chaining: execute the current
     * line and move past it. A stage reached by executing `done` becomes the
     * stage of `done` followed by that line.
     */
    method Advance(ghost st0: Stage, ghost done: seq<Command>) returns (paused: bool)
      requires Valid() && currentLine < |scenario|
      requires StageOf() == Exec(st0, Ctx(), done)
      modifies this`currentLine, this`background, this`portraits, this`overlayUrl, this`overlayShown,
               this`dialogue, this`speaker
      ensures Valid()
      ensures currentLine == old(currentLine) + 1
      ensures paused == Pauses(scenario[old(currentLine)])
      ensures StageOf() == Exec(st0, Ctx(), done + [scenario[old(currentLine)]])
    {
      ExecSnoc(st0, Ctx(), done, scenario[currentLine]);
      paused := Dispatch(scenario[currentLine]);
      currentLine := currentLine + 1;
    }

    /** The `switch` of `processLine` on one line, without the advance and the chaining. */
    method Dispatch(line: Command) returns (paused: bool)
      requires Valid()
      modifies this`background, this`portraits, this`overlayUrl, this`overlayShown, this`dialogue, this`speaker
      ensures Valid()
      ensures paused == Pauses(line)
      ensures StageOf() == Step(old(StageOf()), Ctx(), line)
    {
      paused := false;
      if line.command == "text" {
        var named := if line.param1 in characters then characters[line.param1].name else line.param1;
        speaker := if line.param1 == Narrator then "" else Fill(named, playerName);
        dialogue := Fill(line.param2, playerName);
        Spotlight(line.param1);
        paused := true;
      } else if line.command == "char_show" {
        UpdateCharacterImage(line.param1, line.param2, line.param3);
      } else if line.command == "char_hide" {
        RemovePortraitUnique(portraits, line.param1);
        portraits := RemovePortrait(portraits, line.param1);
      } else if line.command == "bg_change" {
        background := ResolveBgUrl(enc, line.param1);
      } else if line.command == "img_show" {
        overlayUrl := ResolveBgUrl(enc, line.param1);
        overlayShown := true;
        paused := true;
      } else if line.command == "img_hide" {
        overlayShown := false;
      }
    }

    /**
     * `startGame`: on a resume (`currentLine > 0`) rebuild the stage up to
     * the resume line, then run `processLine`. When the rebuild throws,
     * `processLine` is not reached and `ok` is false.
     */
    method StartGame() returns (ok: bool)
      requires Valid()
      modifies this`currentLine, this`background, this`portraits, this`overlayUrl, this`overlayShown, this`dialogue, this`speaker
      ensures Valid()
      ensures ok <==> old(currentLine) <= |scenario|
      ensures !ok ==> currentLine == old(currentLine) && StageOf() == Replay(old(StageOf()), Ctx(), scenario)
      ensures ok && old(currentLine) == |scenario| ==>
                currentLine == old(currentLine) && StageOf() == Replay(old(StageOf()), Ctx(), scenario)
      ensures ok && old(currentLine) < |scenario| ==>
                currentLine == ChainEnd(scenario, old(currentLine)) &&
                StageOf() == Exec(Replay(old(StageOf()), Ctx(), scenario[..old(currentLine)]), Ctx(),
                                  scenario[old(currentLine)..currentLine])
    {
      ok := true;
      if currentLine > 0 {
        ok := RebuildStage(currentLine);
        if !ok {
          assert scenario[..|scenario|] == scenario;
          return;
        }
      }
      ProcessLine();
      assert scenario[..|scenario|] == scenario;
    }

    /** The success branch of `handleLoad`: take the saved name and line, then start. */
    method Resume(savedPlayerName: string, savedLine: nat) returns (ok: bool)
      requires Valid()
      modifies this`playerName, this`currentLine, this`background, this`portraits, this`overlayUrl, this`overlayShown, this`dialogue, this`speaker
      ensures Valid()
      ensures playerName == savedPlayerName
      ensures ok <==> savedLine <= |scenario|
      ensures !ok ==> currentLine == savedLine && StageOf() == Replay(old(StageOf()), Ctx(), scenario)
      ensures ok && savedLine == |scenario| ==>
                currentLine == savedLine && StageOf() == Replay(old(StageOf()), Ctx(), scenario)
      ensures ok && savedLine < |scenario| ==>
                currentLine == ChainEnd(scenario, savedLine) &&
                StageOf() == Exec(Replay(old(StageOf()), Ctx(), scenario[..savedLine]), Ctx(),
                                  scenario[savedLine..currentLine])
    {
      playerName := savedPlayerName;
      currentLine := savedLine;
      ok := StartGame();
    }
  }
}
