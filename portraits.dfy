/**
 * The visible character portraits, in the order their `char_<id>` images
 * were appended to the character container, and the three ways the
 * interpreter changes them: show (create or update), hide (remove) and the
 * speaker highlight of a `text` line.
 */
module Portraits {
  import opened Wrappers
  import opened Assets
  import opened Catalog

  /**
   * One `char_<id>` image: its source URL, its position (the `pos-<...>`
   * part of its class) and whether it carries the `inactive` class.
   */
  datatype Portrait = Portrait(id: string, url: string, pos: string, inactive: bool)

  /** What a portrait shows, leaving aside the `inactive` highlight. */
  datatype Look = Look(id: string, url: string, pos: string)

  function Ids(ps: seq<Portrait>): seq<string> {
    seq(|ps|, j requires 0 <= j < |ps| => ps[j].id)
  }

  function Looks(ps: seq<Portrait>): seq<Look> {
    seq(|ps|, j requires 0 <= j < |ps| => Look(ps[j].id, ps[j].url, ps[j].pos))
  }

  /** Element ids are unique: at most one portrait per character. */
  ghost predicate UniqueIds(ps: seq<Portrait>) {
    forall i, j :: 0 <= i < j < |ps| ==> ps[i].id != ps[j].id
  }

  /** The first index of `x` in `s`. */
  function FirstIndex(s: seq<string>, x: string): (r: Option<nat>)
    ensures r.Some? ==> r.value < |s| && s[r.value] == x
    ensures r.Some? ==> forall j :: 0 <= j < r.value ==> s[j] != x
    ensures r.None? <==> x !in s
  {
    if |s| == 0 then None
    else if s[0] == x then Some(0)
    else
      assert s == [s[0]] + s[1..];
      match FirstIndex(s[1..], x)
      case None => None
      case Some(i) => Some(i + 1)
  }

  /** `document.getElementById('char_' + id)`, as an index into `ps`. */
  function FindPortrait(ps: seq<Portrait>, id: string): Option<nat> {
    FirstIndex(Ids(ps), id)
  }

  /**
   * The element found is the first portrait of the character, and nothing is
   * found exactly when the character has no portrait.
   */
  lemma FindPortraitFirst(ps: seq<Portrait>, id: string)
    ensures var r := FindPortrait(ps, id);
      && (r.Some? ==> r.value < |ps| && ps[r.value].id == id)
      && (r.Some? ==> forall j :: 0 <= j < r.value ==> ps[j].id != id)
      && (r.None? <==> forall j :: 0 <= j < |ps| ==> ps[j].id != id)
  {
    var ids := Ids(ps);
    assert forall j :: 0 <= j < |ps| ==> ids[j] == ps[j].id;
  }

  /** Two portrait lists that look the same locate every character alike. */
  lemma FindPortraitByLooks(ps: seq<Portrait>, qs: seq<Portrait>, id: string)
    requires Looks(ps) == Looks(qs)
    ensures FindPortrait(ps, id) == FindPortrait(qs, id)
  {
    assert |ps| == |Looks(ps)| == |qs|;
    forall j | 0 <= j < |ps| ensures Ids(ps)[j] == Ids(qs)[j] {
      assert Looks(ps)[j] == Looks(qs)[j];
    }
    assert Ids(ps) == Ids(qs);
  }

  /**
   * The image a `char_show` uses: the catalog's URL for the expression when
   * it is present and not empty, otherwise the resolver's fallback.
   */
  function PortraitUrl(chars: Characters, enc: Encoder, charId: string, expressionId: string): (r: string)
    ensures (Lookup(chars, charId, expressionId).Some? && Lookup(chars, charId, expressionId).value != "") ==>
              r == Lookup(chars, charId, expressionId).value
    ensures (Lookup(chars, charId, expressionId).None? || Lookup(chars, charId, expressionId).value == "") ==>
              r == ResolveCharUrl(enc, charId, expressionId)
  {
    match Lookup(chars, charId, expressionId)
    case Some(u) => if u != "" then u else ResolveCharUrl(enc, charId, expressionId)
    case None => ResolveCharUrl(enc, charId, expressionId)
  }

  /** `position || 'center'`. */
  function Position(position: string): (r: string)
    ensures r != ""
    ensures position != "" ==> r == position
  {
    if position == "" then "center" else position
  }

  /**
   * `updateCharacterImage`: create the portrait at the end if it is not on
   * stage, then set its image and its class. Setting the class drops any
   * `inactive` mark.
   */
  function ShowPortrait(ps: seq<Portrait>, chars: Characters, enc: Encoder,
                        charId: string, expressionId: string, position: string): (r: seq<Portrait>)
    ensures Ids(r) == if charId in Ids(ps) then Ids(ps) else Ids(ps) + [charId]
    ensures forall j :: 0 <= j < |ps| && ps[j].id != charId ==> r[j] == ps[j]
    ensures UniqueIds(ps) ==> UniqueIds(r)
    ensures UniqueIds(ps) ==> forall j :: 0 <= j < |r| && r[j].id == charId ==>
              r[j] == Portrait(charId, PortraitUrl(chars, enc, charId, expressionId), Position(position), false)
  {
    var p := Portrait(charId, PortraitUrl(chars, enc, charId, expressionId), Position(position), false);
    match FindPortrait(ps, charId)
    case None =>
      assert forall j :: 0 <= j < |ps| ==> ps[j].id == Ids(ps)[j] != charId;
      assert Ids(ps + [p]) == Ids(ps) + [charId];
      ps + [p]
    case Some(i) =>
      assert Ids(ps[i := p]) == Ids(ps);
      ps[i := p]
  }

  /** The portraits of `ps` other than `charId`'s, in order. */
  function Without(ps: seq<Portrait>, charId: string): seq<Portrait> {
    if ps == [] then []
    else (if ps[0].id == charId then [] else [ps[0]]) + Without(ps[1..], charId)
  }

  /** `Without` keeps exactly the portraits of other characters. */
  lemma {:induction false} WithoutMembers(ps: seq<Portrait>, charId: string)
    ensures forall p :: p in Without(ps, charId) <==> p in ps && p.id != charId
    decreases |ps|
  {
    if ps != [] {
      WithoutMembers(ps[1..], charId);
      assert ps == [ps[0]] + ps[1..];
    }
  }

  lemma {:induction false} WithoutAppend(a: seq<Portrait>, b: seq<Portrait>, charId: string)
    ensures Without(a + b, charId) == Without(a, charId) + Without(b, charId)
    decreases |a|
  {
    if a == [] {
      assert a + b == b;
    } else {
      var p, t := a[0], a[1..];
      assert a == [p] + t && a + b == [p] + (t + b);
      WithoutCons(p, t + b, charId);
      WithoutCons(p, t, charId);
      WithoutAppend(t, b, charId);
      var h := if p.id == charId then [] else [p];
      assert h + (Without(t, charId) + Without(b, charId)) == (h + Without(t, charId)) + Without(b, charId);
    }
  }

  lemma WithoutCons(p: Portrait, t: seq<Portrait>, charId: string)
    ensures Without([p] + t, charId) == (if p.id == charId then [] else [p]) + Without(t, charId)
  {
    assert ([p] + t)[0] == p && ([p] + t)[1..] == t;
  }

  lemma {:induction false} WithoutAbsent(a: seq<Portrait>, charId: string)
    requires forall j :: 0 <= j < |a| ==> a[j].id != charId
    ensures Without(a, charId) == a
    decreases |a|
  {
    if a != [] {
      WithoutAbsent(a[1..], charId);
    }
  }

  /**
   * `char_hide`: remove the element `char_<id>` if there is one (lemma
   * RemovePortraitUnique says what remains on a stage with unique ids).
   */
  function RemovePortrait(ps: seq<Portrait>, charId: string): (r: seq<Portrait>)
    ensures charId !in Ids(ps) ==> r == ps
    ensures |r| == if charId in Ids(ps) then |ps| - 1 else |ps|
  {
    match FindPortrait(ps, charId)
    case None =>
      assert forall j :: 0 <= j < |ps| ==> ps[j].id == Ids(ps)[j] != charId;
      WithoutAbsent(ps, charId);
      ps
    case Some(i) =>
      ps[..i] + ps[i + 1..]
  }

  /**
   * On a stage with unique ids, `char_hide` removes exactly that character's
   * portrait, keeps the others in order, and the ids stay unique.
   */
  lemma RemovePortraitUnique(ps: seq<Portrait>, charId: string)
    requires UniqueIds(ps)
    ensures var r := RemovePortrait(ps, charId);
      r == Without(ps, charId) && UniqueIds(r) && charId !in Ids(r)
  {
    match FindPortrait(ps, charId)
    case None =>
      assert forall j :: 0 <= j < |ps| ==> ps[j].id == Ids(ps)[j] != charId;
      WithoutAbsent(ps, charId);
    case Some(i) =>
      RemoveFirstIsWithout(ps, i, charId);
  }

  lemma RemoveFirstIsWithout(ps: seq<Portrait>, i: nat, charId: string)
    requires i < |ps| && ps[i].id == charId
    ensures UniqueIds(ps) ==> ps[..i] + ps[i + 1..] == Without(ps, charId)
    ensures UniqueIds(ps) ==> UniqueIds(ps[..i] + ps[i + 1..]) && charId !in Ids(ps[..i] + ps[i + 1..])
  {
    if UniqueIds(ps) {
      var r := ps[..i] + ps[i + 1..];
      assert forall j :: 0 <= j < |r| ==> r[j] == if j < i then ps[j] else ps[j + 1];
      assert forall j :: 0 <= j < |ps| && j != i ==> ps[j].id != charId by {
        forall j | 0 <= j < |ps| && j != i ensures ps[j].id != charId {
          if j < i { assert ps[j].id != ps[i].id; } else { assert ps[i].id != ps[j].id; }
        }
      }
      SpliceIsWithout(ps, i, charId);
      assert forall j :: 0 <= j < |r| ==> Ids(r)[j] == r[j].id != charId;
    }
  }

  lemma SpliceIsWithout(ps: seq<Portrait>, i: nat, charId: string)
    requires i < |ps| && ps[i].id == charId
    requires forall j :: 0 <= j < |ps| && j != i ==> ps[j].id != charId
    ensures ps[..i] + ps[i + 1..] == Without(ps, charId)
  {
    var a, m, b := ps[..i], [ps[i]], ps[i + 1..];
    forall j | 0 <= j < |a| ensures a[j].id != charId { assert a[j] == ps[j]; }
    forall j | 0 <= j < |b| ensures b[j].id != charId { assert b[j] == ps[i + 1 + j]; }
    WithoutAbsent(a, charId);
    WithoutAbsent(b, charId);
    WithoutSelf(ps[i], charId);
    WithoutAppend(a, m, charId);
    assert Without(a + m, charId) == a;
    WithoutAppend(a + m, b, charId);
    assert Without(a + m + b, charId) == a + b;
    assert ps == a + m + b;
  }

  /** The portrait of `charId` alone is removed entirely. */
  lemma WithoutSelf(p: Portrait, charId: string)
    requires p.id == charId
    ensures Without([p], charId) == []
  {
    assert [p][1..] == [];
  }

  /**
   * The highlight of a `text` line: every portrait is marked inactive except
   * the speaker's.
   */
  function Spotlit(ps: seq<Portrait>, speakerId: string): (r: seq<Portrait>)
    ensures Looks(r) == Looks(ps)
  {
    seq(|ps|, j requires 0 <= j < |ps| => ps[j].(inactive := ps[j].id != speakerId))
  }

  /** What `char_show` displays depends only on what was displayed before. */
  lemma ShowPortraitByLooks(ps: seq<Portrait>, qs: seq<Portrait>, chars: Characters, enc: Encoder,
                            charId: string, expressionId: string, position: string)
    requires Looks(ps) == Looks(qs)
    ensures Looks(ShowPortrait(ps, chars, enc, charId, expressionId, position))
         == Looks(ShowPortrait(qs, chars, enc, charId, expressionId, position))
  {
    FindPortraitByLooks(ps, qs, charId);
    assert |ps| == |Looks(ps)| == |qs|;
    forall j | 0 <= j < |ps| ensures Looks(ps)[j] == Looks(qs)[j] { }
    var p := Portrait(charId, PortraitUrl(chars, enc, charId, expressionId), Position(position), false);
    var r1, r2 := ps + [p], qs + [p];
    match FindPortrait(ps, charId)
    case None =>
      forall j | 0 <= j < |r1| ensures Looks(r1)[j] == Looks(r2)[j] {
        if j < |ps| { assert Looks(ps)[j] == Looks(qs)[j]; }
      }
      assert Looks(r1) == Looks(r2);
    case Some(i) =>
      var t1, t2 := ps[i := p], qs[i := p];
      forall j | 0 <= j < |t1| ensures Looks(t1)[j] == Looks(t2)[j] {
        if j != i { assert Looks(ps)[j] == Looks(qs)[j]; }
      }
      assert Looks(t1) == Looks(t2);
  }

  /** What `char_hide` leaves depends only on what was displayed before. */
  lemma RemovePortraitByLooks(ps: seq<Portrait>, qs: seq<Portrait>, charId: string)
    requires Looks(ps) == Looks(qs)
    ensures Looks(RemovePortrait(ps, charId)) == Looks(RemovePortrait(qs, charId))
  {
    FindPortraitByLooks(ps, qs, charId);
    match FindPortrait(ps, charId)
    case None =>
    case Some(i) => SpliceLooks(ps, qs, i);
  }

  /** Lists that look the same still do after removing the same position. */
  lemma SpliceLooks(ps: seq<Portrait>, qs: seq<Portrait>, i: nat)
    requires Looks(ps) == Looks(qs) && i < |ps|
    ensures Looks(ps[..i] + ps[i + 1..]) == Looks(qs[..i] + qs[i + 1..])
  {
    assert |ps| == |Looks(ps)| == |qs|;
    var r1, r2 := ps[..i] + ps[i + 1..], qs[..i] + qs[i + 1..];
    forall j | 0 <= j < |r1| ensures Looks(r1)[j] == Looks(r2)[j] {
      var k := if j < i then j else j + 1;
      assert r1[j] == ps[k] && r2[j] == qs[k];
      assert Looks(ps)[k] == Looks(qs)[k];
    }
    assert Looks(r1) == Looks(r2);
  }
}
