/**
 * The catalog the interpreter runs against: the scenario's command records,
 * sorted by their `order` field, and the character catalog grouped from one
 * record per (character, expression).
 */
module Catalog {
  import opened Wrappers

  /** One scenario line. A missing `order` is `None`. */
  datatype Command = Command(order: Option<int>, command: string, param1: string, param2: string, param3: string)

  /** One fetched character record (one per expression). */
  datatype CharRecord = CharRecord(characterId: string, characterName: string, expressionId: string, imageUrl: string)

  /** A catalog entry: display name template and expression-to-URL table. */
  datatype CharDef = CharDef(name: string, expressions: map<string, string>)

  type Characters = map<string, CharDef>

  /** The sort key `(a.order || 0)`. */
  function OrderKey(c: Command): (r: int)
    ensures r == 0 <==> c.order.None? || c.order.value == 0
    ensures c.order.Some? ==> r == c.order.value
  {
    match c.order
    case None => 0
    case Some(n) => n
  }

  ghost predicate SortedByOrder(s: seq<Command>) {
    forall i, j :: 0 <= i < j < |s| ==> OrderKey(s[i]) <= OrderKey(s[j])
  }

  /** The commands of `s` whose key is `k`, in their order in `s`. */
  function WithKey(s: seq<Command>, k: int): seq<Command> {
    if s == [] then []
    else (if OrderKey(s[0]) == k then [s[0]] else []) + WithKey(s[1..], k)
  }

  /** Inserts `c` before the first element whose key is not smaller. */
  function Insert(c: Command, s: seq<Command>): (r: seq<Command>)
    ensures multiset(r) == multiset(s) + multiset{c}
  {
    if s == [] || OrderKey(c) <= OrderKey(s[0]) then
      [c] + s
    else
      assert s == [s[0]] + s[1..];
      [s[0]] + Insert(c, s[1..])
  }

  /** Every key in `s` is at least `lo`. */
  ghost predicate KeysAtLeast(s: seq<Command>, lo: int) {
    forall i :: 0 <= i < |s| ==> lo <= OrderKey(s[i])
  }

  lemma {:induction false} InsertSorted(c: Command, s: seq<Command>, lo: int)
    requires SortedByOrder(s) && KeysAtLeast(s, lo) && lo <= OrderKey(c)
    ensures SortedByOrder(Insert(c, s)) && KeysAtLeast(Insert(c, s), lo)
    decreases |s|
  {
    if s == [] || OrderKey(c) <= OrderKey(s[0]) {
    } else {
      var t := s[1..];
      assert SortedByOrder(t) && KeysAtLeast(t, OrderKey(s[0]));
      InsertSorted(c, t, OrderKey(s[0]));
      var r := Insert(c, t);
      assert Insert(c, s) == [s[0]] + r;
    }
  }

  /**
   * The scenario order: `Array.prototype.sort` with the comparator
   * `(a.order || 0) - (b.order || 0)`, an ascending sort by key that is a
   * permutation of its input (stability is lemma SortStable).
   */
  function SortByOrder(s: seq<Command>): (r: seq<Command>)
    ensures SortedByOrder(r)
    ensures multiset(r) == multiset(s)
  {
    if s == [] then []
    else
      var t := SortByOrder(s[1..]);
      assert s == [s[0]] + s[1..];
      var lo := if t == [] || OrderKey(s[0]) <= OrderKey(t[0]) then OrderKey(s[0]) else OrderKey(t[0]);
      SortedKeysAtLeast(t, lo);
      InsertSorted(s[0], t, lo);
      Insert(s[0], t)
  }

  /** A sorted list has no key below a bound that its first key meets. */
  lemma SortedKeysAtLeast(t: seq<Command>, lo: int)
    requires SortedByOrder(t) && (t != [] ==> lo <= OrderKey(t[0]))
    ensures KeysAtLeast(t, lo)
  {
    forall i | 0 <= i < |t| ensures lo <= OrderKey(t[i]) {
      if i > 0 { assert OrderKey(t[0]) <= OrderKey(t[i]); }
    }
  }

  lemma WithKeyCons(x: Command, s: seq<Command>, k: int)
    ensures WithKey([x] + s, k) == (if OrderKey(x) == k then [x] else []) + WithKey(s, k)
  {
    assert ([x] + s)[1..] == s;
  }

  /** `c` goes in front of every element of its own key. */
  lemma {:induction false} InsertWithKey(c: Command, s: seq<Command>, k: int)
    ensures WithKey(Insert(c, s), k) == (if OrderKey(c) == k then [c] else []) + WithKey(s, k)
    decreases |s|
  {
    if s == [] || OrderKey(c) <= OrderKey(s[0]) {
      WithKeyCons(c, s, k);
    } else {
      InsertWithKey(c, s[1..], k);
      WithKeyCons(s[0], Insert(c, s[1..]), k);
      WithKeyCons(s[0], s[1..], k);
      assert s == [s[0]] + s[1..];
    }
  }

  /** The sort is stable: commands with the same key keep their relative order. */
  lemma {:induction false} SortStable(s: seq<Command>, k: int)
    ensures WithKey(SortByOrder(s), k) == WithKey(s, k)
    decreases |s|
  {
    if s != [] {
      SortStable(s[1..], k);
      InsertWithKey(s[0], SortByOrder(s[1..]), k);
      WithKeyCons(s[0], s[1..], k);
      assert s == [s[0]] + s[1..];
    }
  }

  /** The entry for `expressionId` of `charId`, if the catalog has one. */
  function Lookup(m: Characters, charId: string, expressionId: string): Option<string> {
    if charId in m && expressionId in m[charId].expressions then Some(m[charId].expressions[expressionId]) else None
  }

  /** One step of the `forEach` over the fetched character records. */
  function AddRecord(m: Characters, c: CharRecord): Characters {
    var d := if c.characterId in m then m[c.characterId] else CharDef(c.characterName, map[]);
    m[c.characterId := d.(expressions := d.expressions[c.expressionId := c.imageUrl])]
  }

  /**
   * One record adds its character (named by the record only when new) and
   * sets the image of its expression; the other characters and the other
   * expressions are as before.
   */
  lemma AddRecordEffect(m: Characters, c: CharRecord)
    ensures var r := AddRecord(m, c);
      && r.Keys == m.Keys + {c.characterId}
      && (forall id :: id in m && id != c.characterId ==> r[id] == m[id])
      && r[c.characterId].name == (if c.characterId in m then m[c.characterId].name else c.characterName)
      && Lookup(r, c.characterId, c.expressionId) == Some(c.imageUrl)
      && (forall e :: e != c.expressionId ==> Lookup(r, c.characterId, e) == Lookup(m, c.characterId, e))
  {
  }

  /** The catalog after folding `rs` into `base` in order. */
  function Group(base: Characters, rs: seq<CharRecord>): Characters
    decreases |rs|
  {
    if rs == [] then base else AddRecord(Group(base, rs[..|rs| - 1]), rs[|rs| - 1])
  }

  /** The catalog holds exactly the characters of `base` and of the records. */
  lemma {:induction false} GroupKeys(base: Characters, rs: seq<CharRecord>, id: string)
    ensures id in Group(base, rs) <==> id in base || exists j :: 0 <= j < |rs| && rs[j].characterId == id
    decreases |rs|
  {
    if rs != [] {
      var n := |rs| - 1;
      GroupKeys(base, rs[..n], id);
      if exists j :: 0 <= j < n && rs[..n][j].characterId == id {
        var j :| 0 <= j < n && rs[..n][j].characterId == id;
        assert rs[j].characterId == id;
      }
      if exists j :: 0 <= j < |rs| && rs[j].characterId == id {
        var j :| 0 <= j < |rs| && rs[j].characterId == id;
        if j < n { assert rs[..n][j].characterId == id; }
      }
    }
  }

  /** A character already in `base` keeps its name. */
  lemma {:induction false} GroupNameKept(base: Characters, rs: seq<CharRecord>, id: string)
    requires id in base
    ensures id in Group(base, rs) && Group(base, rs)[id].name == base[id].name
    decreases |rs|
  {
    if rs != [] {
      GroupNameKept(base, rs[..|rs| - 1], id);
    }
  }

  /** A new character takes its name from the first record that mentions it. */
  lemma {:induction false} GroupNameFromFirst(base: Characters, rs: seq<CharRecord>, i: nat)
    requires i < |rs| && rs[i].characterId !in base
    requires forall j :: 0 <= j < i ==> rs[j].characterId != rs[i].characterId
    ensures rs[i].characterId in Group(base, rs)
    ensures Group(base, rs)[rs[i].characterId].name == rs[i].characterName
    decreases |rs|
  {
    var n := |rs| - 1;
    var id := rs[i].characterId;
    if i == n {
      GroupKeys(base, rs[..n], id);
      assert id !in Group(base, rs[..n]);
    } else {
      GroupNameFromFirst(base, rs[..n], i);
    }
  }

  /** Each (character, expression) gets the image URL of the last record for it. */
  lemma {:induction false} GroupUrlFromLast(base: Characters, rs: seq<CharRecord>, i: nat)
    requires i < |rs|
    requires forall j :: i < j < |rs| ==>
               rs[j].characterId != rs[i].characterId || rs[j].expressionId != rs[i].expressionId
    ensures Lookup(Group(base, rs), rs[i].characterId, rs[i].expressionId) == Some(rs[i].imageUrl)
    decreases |rs|
  {
    var n := |rs| - 1;
    if i < n {
      GroupUrlFromLast(base, rs[..n], i);
    }
  }

  /** A (character, expression) no record mentions is looked up as in `base`. */
  lemma {:induction false} GroupUrlFromBase(base: Characters, rs: seq<CharRecord>, id: string, e: string)
    requires forall j :: 0 <= j < |rs| ==> rs[j].characterId != id || rs[j].expressionId != e
    ensures Lookup(Group(base, rs), id, e) == Lookup(base, id, e)
    decreases |rs|
  {
    if rs != [] {
      GroupUrlFromBase(base, rs[..|rs| - 1], id, e);
    }
  }
}
