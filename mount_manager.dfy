/**
 * Mount prototypes and the registry that indexes them
 * (src/game/mount_manager.h, src/game/mount_manager.cpp).
 *
 * A prototype wraps one record of the mount table.  The registry keeps two
 * indexes over the prototypes it allocated while loading a table: one by vnum
 * and one by (non-empty) name.  Loading runs over the table in order, so for
 * every key the LAST entry carrying it wins; an entry that loses its vnum to a
 * later one may still be the one its name leads to.
 */
module MountManager {
  import opened Wrappers

  newtype Byte = x: int | 0 <= x < 0x100

  /** DWORD: an unsigned 32-bit vnum. */
  type DWord = x: int | 0 <= x < 0x1_0000_0000

  /**
   * The bonus type that marks an empty apply slot (APPLY_NONE).  Its numeric
   * value is defined in a table header that is not part of this model, so it
   * is left unspecified here.
   */
  const ApplyNone: Byte

  /** The text of a NUL-terminated C string: it holds no NUL character, and its length is what strlen gives. */
  type CString = s: string | '\0' !in s

  /** One bonus slot of a mount record (TItemApply). */
  datatype ItemApply = ItemApply(applyType: Byte, value: int)

  /**
   * One mount record (TMountTable).  The record's apply array has
   * MOUNT_APPLY_MAX_NUM slots; here that constant is the length of `applies`.
   * `name` is the text of the NUL-terminated name field and may be empty.
   */
  datatype MountTable = MountTable(
    vnum: DWord,
    name: CString,
    localeName: CString,
    movementSpeed: Byte,
    level: Byte,
    applies: seq<ItemApply>)

  // ---------------------------------------------------------------------
  // Counting bonuses
  // ---------------------------------------------------------------------

  /** The number of non-empty slots among `applies`, counted from the front. */
  function ActiveCount(applies: seq<ItemApply>): (n: nat)
    ensures n <= |applies|
  {
    if applies == [] then 0
    else
      var last := applies[|applies| - 1];
      ActiveCount(applies[..|applies| - 1]) + (if last.applyType != ApplyNone then 1 else 0)
  }

  /** The positions of the non-empty slots. */
  ghost function ActiveSlots(applies: seq<ItemApply>): set<int>
  {
    set i | 0 <= i < |applies| && applies[i].applyType != ApplyNone
  }

  /** Counting the non-empty slots one by one gives the size of the set of non-empty positions. */
  lemma {:induction false} ActiveCountIsSlotCount(applies: seq<ItemApply>)
    ensures ActiveCount(applies) == |ActiveSlots(applies)|
  {
    if applies != [] {
      var n := |applies| - 1;
      var front := applies[..n];
      ActiveCountIsSlotCount(front);
      if applies[n].applyType != ApplyNone {
        assert ActiveSlots(applies) == ActiveSlots(front) + {n};
      } else {
        assert ActiveSlots(applies) == ActiveSlots(front);
      }
    }
  }

  // ---------------------------------------------------------------------
  // CMountProto
  // ---------------------------------------------------------------------

  /**
   * A mount prototype.  Its record is copied in once, when the registry
   * allocates it, and never changes afterwards.
   */
  class MountProto {
    const table: MountTable

    constructor (t: MountTable)
      ensures table == t
    {
      table := t;
    }

    function GetVnum(): DWord { table.vnum }
    function GetName(): CString { table.name }
    function GetLocaleName(): CString { table.localeName }
    function GetMovSpeed(): Byte { table.movementSpeed }
    function GetLevel(): Byte { table.level }

    /**
     * The bonus in slot `index`, or None when `index` is outside the slot
     * array or the slot is empty.
     */
    function GetApply(index: int): (r: Option<ItemApply>)
      ensures r.Some? <==> 0 <= index < |table.applies| && table.applies[index].applyType != ApplyNone
      ensures r.Some? ==> r.value == table.applies[index]
    {
      if index < 0 || index >= |table.applies| then None
      else if table.applies[index].applyType == ApplyNone then None
      else Some(table.applies[index])
    }

    /** The number of slots for which GetApply yields a bonus. */
    method GetApplyCount() returns (count: int)
      ensures count == |set i | 0 <= i < |table.applies| && GetApply(i).Some?|
      ensures 0 <= count <= |table.applies|
    {
      var applies := table.applies;
      count := 0;
      var i := 0;
      while i < |applies|
        invariant 0 <= i <= |applies|
        invariant count == ActiveCount(applies[..i])
      {
        assert applies[..i + 1][..i] == applies[..i];
        if applies[i].applyType != ApplyNone {
          count := count + 1;
        }
        i := i + 1;
      }
      assert applies[..i] == applies;
      ActiveCountIsSlotCount(applies);
      assert (set j | 0 <= j < |applies| && GetApply(j).Some?) == ActiveSlots(applies);
    }
  }

  // ---------------------------------------------------------------------
  // Loading a table: which entry each key ends up with
  // ---------------------------------------------------------------------

  /** The records of a sequence of prototypes, in the same order. */
  function TablesOf(ps: seq<MountProto>): (t: seq<MountTable>)
    ensures |t| == |ps|
    ensures forall i | 0 <= i < |ps| :: t[i] == ps[i].table
  {
    seq(|ps|, i requires 0 <= i < |ps| => ps[i].table)
  }

  /**
   * The vnum index after inserting the entries of `t` in order, as positions
   * into `t`: each insertion overwrites the key's previous position.
   */
  function VnumSlots(t: seq<MountTable>): (m: map<DWord, nat>)
    ensures forall v | v in m :: m[v] < |t|
  {
    if t == [] then map[]
    else VnumSlots(t[..|t| - 1])[t[|t| - 1].vnum := |t| - 1]
  }

  /** The name index after loading `t` in order; entries with an empty name are not indexed. */
  function NameSlots(t: seq<MountTable>): (m: map<string, nat>)
    ensures forall n | n in m :: m[n] < |t|
  {
    if t == [] then map[]
    else
      var m := NameSlots(t[..|t| - 1]);
      var last := t[|t| - 1];
      if |last.name| > 0 then m[last.name := |t| - 1] else m
  }

  /** No entry after position `i` carries the vnum of entry `i`. */
  predicate LastWithVnum(t: seq<MountTable>, i: int)
  {
    0 <= i < |t| && forall j | i < j < |t| :: t[j].vnum != t[i].vnum
  }

  /** No entry after position `i` carries the name of entry `i`. */
  predicate LastWithName(t: seq<MountTable>, i: int)
  {
    0 <= i < |t| && forall j | i < j < |t| :: t[j].name != t[i].name
  }

  /** The distinct vnums of a table. */
  ghost function Vnums(t: seq<MountTable>): set<DWord>
  {
    set i | 0 <= i < |t| :: t[i].vnum
  }

  /** Last write wins in the vnum index: a vnum is indexed iff some entry has it, and then at its last entry. */
  lemma {:induction false} VnumSlotsLastWins(t: seq<MountTable>, v: DWord)
    ensures v in VnumSlots(t) <==> exists i | 0 <= i < |t| :: t[i].vnum == v
    ensures v in VnumSlots(t) ==> t[VnumSlots(t)[v]].vnum == v && LastWithVnum(t, VnumSlots(t)[v])
  {
    if t != [] {
      var n := |t| - 1;
      var front := t[..n];
      VnumSlotsLastWins(front, v);
      if t[n].vnum != v {
        if v in VnumSlots(front) {
          assert front[VnumSlots(front)[v]] == t[VnumSlots(front)[v]];
        }
        if exists i | 0 <= i < |t| :: t[i].vnum == v {
          var i :| 0 <= i < |t| && t[i].vnum == v;
          assert front[i].vnum == v;
        }
      }
    }
  }

  /**
   * Last write wins in the name index: a name is indexed iff it is non-empty
   * and some entry has it, and then at its last entry.
   */
  lemma {:induction false} NameSlotsLastWins(t: seq<MountTable>, name: string)
    ensures name in NameSlots(t) <==> |name| > 0 && exists i | 0 <= i < |t| :: t[i].name == name
    ensures name in NameSlots(t) ==> t[NameSlots(t)[name]].name == name && LastWithName(t, NameSlots(t)[name])
  {
    if t != [] {
      var n := |t| - 1;
      var front := t[..n];
      NameSlotsLastWins(front, name);
      if t[n].name != name {
        if name in NameSlots(front) {
          assert front[NameSlots(front)[name]] == t[NameSlots(front)[name]];
        }
        if exists i | 0 <= i < |t| :: t[i].name == name {
          var i :| 0 <= i < |t| && t[i].name == name;
          assert front[i].name == name;
        }
      }
    }
  }

  /** The vnum index holds one key per distinct vnum of the table. */
  lemma VnumSlotsKeys(t: seq<MountTable>)
    ensures VnumSlots(t).Keys == Vnums(t)
  {
    forall v: DWord ensures v in VnumSlots(t) <==> v in Vnums(t) {
      VnumSlotsLastWins(t, v);
    }
  }

  /** A table has no more distinct vnums than entries. */
  lemma {:induction false} VnumsAtMostEntries(t: seq<MountTable>)
    ensures |Vnums(t)| <= |t|
  {
    if t != [] {
      var n := |t| - 1;
      var front := t[..n];
      VnumsAtMostEntries(front);
      assert Vnums(t) == Vnums(front) + {t[n].vnum} by {
        forall v | v in Vnums(t) ensures v in Vnums(front) + {t[n].vnum} {
          var i :| 0 <= i < |t| && t[i].vnum == v;
          if i < n { assert front[i].vnum == v; }
        }
        forall v | v in Vnums(front) ensures v in Vnums(t) {
          var i :| 0 <= i < n && front[i].vnum == v;
          assert t[i].vnum == v;
        }
      }
    }
  }

  /** The vnum index after loading `t` has one key per distinct vnum, hence at most |t| keys. */
  lemma VnumSlotsSize(t: seq<MountTable>)
    ensures |VnumSlots(t)| == |Vnums(t)| <= |t|
  {
    VnumSlotsKeys(t);
    assert |VnumSlots(t)| == |VnumSlots(t).Keys|;
    VnumsAtMostEntries(t);
  }

  /**
   * An entry that is the last one with its name stays reachable by name even
   * when a later entry took over its vnum.
   */
  lemma ShadowedEntryReachableByName(t: seq<MountTable>, i: int, j: int)
    requires 0 <= i < j < |t|
    requires t[j].vnum == t[i].vnum
    requires |t[i].name| > 0 && LastWithName(t, i)
    ensures t[i].name in NameSlots(t) && NameSlots(t)[t[i].name] == i
    ensures t[i].vnum in VnumSlots(t) && VnumSlots(t)[t[i].vnum] != i
  {
    NameSlotsLastWins(t, t[i].name);
    VnumSlotsLastWins(t, t[i].vnum);
  }

  /** The index built from positions: each key leads to the prototype allocated for its entry. */
  function Resolve<K>(slots: map<K, nat>, ps: seq<MountProto>): (m: map<K, MountProto>)
    requires forall k | k in slots :: slots[k] < |ps|
    ensures m.Keys == slots.Keys
    ensures forall k | k in m :: m[k] == ps[slots[k]]
  {
    map k | k in slots :: ps[slots[k]]
  }

  /** Appending a prototype and pointing one key at it is one more insertion into the index. */
  lemma ResolveExtend<K>(slots: map<K, nat>, ps: seq<MountProto>, k: K, p: MountProto)
    requires forall x | x in slots :: slots[x] < |ps|
    ensures Resolve(slots[k := |ps|], ps + [p]) == Resolve(slots, ps)[k := p]
  {
    var ps' := ps + [p];
    forall x | x in slots ensures ps'[slots[x]] == ps[slots[x]] { }
  }

  /** The vnum index after allocating the prototypes `ps` in order and inserting each by its vnum. */
  function VnumIndex(ps: seq<MountProto>): map<DWord, MountProto>
  {
    if ps == [] then map[]
    else
      var last := ps[|ps| - 1];
      VnumIndex(ps[..|ps| - 1])[last.GetVnum() := last]
  }

  /** The name index after the same load: prototypes with an empty name are skipped. */
  function NameIndex(ps: seq<MountProto>): map<string, MountProto>
  {
    if ps == [] then map[]
    else
      var last := ps[|ps| - 1];
      var m := NameIndex(ps[..|ps| - 1]);
      if |last.GetName()| > 0 then m[last.GetName() := last] else m
  }

  /** Loading one more prototype points its vnum at it and leaves every other vnum alone. */
  lemma VnumSlotsStep(ps: seq<MountProto>, p: MountProto)
    ensures Resolve(VnumSlots(TablesOf(ps + [p])), ps + [p]) == Resolve(VnumSlots(TablesOf(ps)), ps)[p.GetVnum() := p]
  {
    var t := TablesOf(ps + [p]);
    assert t[..|t| - 1] == TablesOf(ps);
    ResolveExtend(VnumSlots(TablesOf(ps)), ps, p.GetVnum(), p);
  }

  /** Loading one more prototype points its name at it, unless the name is empty. */
  lemma NameSlotsStep(ps: seq<MountProto>, p: MountProto)
    ensures Resolve(NameSlots(TablesOf(ps + [p])), ps + [p]) ==
      var m := Resolve(NameSlots(TablesOf(ps)), ps);
      if |p.GetName()| > 0 then m[p.GetName() := p] else m
  {
    var t := TablesOf(ps + [p]);
    assert t[..|t| - 1] == TablesOf(ps);
    if |p.GetName()| > 0 {
      ResolveExtend(NameSlots(TablesOf(ps)), ps, p.GetName(), p);
    } else {
      var ps' := ps + [p];
      forall x | x in NameSlots(TablesOf(ps)) ensures ps'[NameSlots(TablesOf(ps))[x]] == ps[NameSlots(TablesOf(ps))[x]] { }
    }
  }

  /** Each vnum of the index leads to the prototype allocated for the last entry with that vnum. */
  lemma {:induction false} VnumIndexFollowsSlots(ps: seq<MountProto>)
    ensures VnumIndex(ps) == Resolve(VnumSlots(TablesOf(ps)), ps)
  {
    if ps != [] {
      var front := ps[..|ps| - 1];
      VnumIndexFollowsSlots(front);
      VnumSlotsStep(front, ps[|ps| - 1]);
      assert front + [ps[|ps| - 1]] == ps;
    }
  }

  /** Each name of the index leads to the prototype allocated for the last entry with that name. */
  lemma {:induction false} NameIndexFollowsSlots(ps: seq<MountProto>)
    ensures NameIndex(ps) == Resolve(NameSlots(TablesOf(ps)), ps)
  {
    if ps != [] {
      var front := ps[..|ps| - 1];
      NameIndexFollowsSlots(front);
      NameSlotsStep(front, ps[|ps| - 1]);
      assert front + [ps[|ps| - 1]] == ps;
    }
  }

  /** Every prototype in the vnum index is filed under its own vnum. */
  lemma {:induction false} VnumIndexKeysMatch(ps: seq<MountProto>)
    ensures forall v | v in VnumIndex(ps) :: VnumIndex(ps)[v].GetVnum() == v
  {
    if ps != [] {
      VnumIndexKeysMatch(ps[..|ps| - 1]);
    }
  }

  /** Loading one more prototype updates each index by one insertion (or none, for an empty name). */
  lemma LoadStep(ps: seq<MountProto>, p: MountProto)
    ensures VnumIndex(ps + [p]) == VnumIndex(ps)[p.GetVnum() := p]
    ensures NameIndex(ps + [p]) == if |p.GetName()| > 0 then NameIndex(ps)[p.GetName() := p] else NameIndex(ps)
  {
    assert (ps + [p])[..|ps|] == ps;
  }

  /** After a load the vnum index has one key per distinct vnum, so at most one per prototype. */
  lemma VnumIndexSize(ps: seq<MountProto>)
    ensures |VnumIndex(ps)| == |Vnums(TablesOf(ps))| <= |ps|
  {
    VnumIndexFollowsSlots(ps);
    VnumSlotsSize(TablesOf(ps));
  }

  // ---------------------------------------------------------------------
  // Ordered iteration over the vnum index (std::map order)
  // ---------------------------------------------------------------------

  /** The smallest element of a set of vnums. */
  predicate IsMinimum(m: DWord, s: set<DWord>)
  {
    m in s && forall x | x in s :: m <= x
  }

  lemma {:induction false} MinimumExists(s: set<DWord>)
    requires s != {}
    ensures exists m :: IsMinimum(m, s)
    decreases |s|
  {
    var y :| y in s;
    var rest := s - {y};
    if rest == {} {
      assert s == {y};
      assert IsMinimum(y, s);
    } else {
      MinimumExists(rest);
      var m' :| IsMinimum(m', rest);
      var m := if y < m' then y else m';
      forall x | x in s ensures m <= x {
        if x != y { assert x in rest; }
      }
      assert IsMinimum(m, s);
    }
  }

  predicate StrictlyAscending(r: seq<DWord>)
  {
    forall i, j | 0 <= i < j < |r| :: r[i] < r[j]
  }

  /** Putting the minimum of `s` in front of the ascending rest of `s` lists all of `s` in ascending order. */
  lemma PrependMinimum(m: DWord, s: set<DWord>, rest: seq<DWord>)
    requires IsMinimum(m, s)
    requires |rest| == |s - {m}| && StrictlyAscending(rest)
    requires forall k :: k in rest <==> k in s - {m}
    ensures |[m] + rest| == |s| && StrictlyAscending([m] + rest)
    ensures forall k :: k in [m] + rest <==> k in s
  {
    assert s == (s - {m}) + {m};
    forall i | 0 <= i < |rest| ensures m < rest[i] {
      assert rest[i] in s - {m};
    }
  }

  /** The keys of a set in strictly ascending order. */
  ghost function Ascending(s: set<DWord>): (r: seq<DWord>)
    ensures |r| == |s| && StrictlyAscending(r)
    ensures forall k :: k in r <==> k in s
    decreases |s|
  {
    if s == {} then []
    else
      MinimumExists(s);
      var m :| IsMinimum(m, s);
      var rest := Ascending(s - {m});
      PrependMinimum(m, s, rest);
      [m] + rest
  }

  /** The entries of a vnum-keyed map in ascending key order, as an ordered map iterates them. */
  ghost function InOrder(m: map<DWord, MountProto>): seq<(DWord, MountProto)>
  {
    Entries(Ascending(m.Keys), m)
  }

  /** Ordered iteration visits the keys in strictly ascending order ... */
  lemma InOrderAscending(m: map<DWord, MountProto>)
    ensures forall i, j | 0 <= i < j < |InOrder(m)| :: InOrder(m)[i].0 < InOrder(m)[j].0
  {
    var keys := Ascending(m.Keys);
    var r := InOrder(m);
    assert r == Entries(keys, m);
    forall i, j | 0 <= i < j < |r| ensures r[i].0 < r[j].0 {
      assert r[i].0 == keys[i] && r[j].0 == keys[j];
    }
  }

  /** ... each paired with its value ... */
  lemma InOrderValues(m: map<DWord, MountProto>)
    ensures |InOrder(m)| == |m|
    ensures forall i | 0 <= i < |InOrder(m)| :: InOrder(m)[i].0 in m && InOrder(m)[i].1 == m[InOrder(m)[i].0]
  {
    var keys := Ascending(m.Keys);
    assert |m.Keys| == |m|;
    InOrderValuesAt(m, keys);
  }

  lemma InOrderValuesAt(m: map<DWord, MountProto>, keys: seq<DWord>)
    requires keys == Ascending(m.Keys)
    ensures forall i | 0 <= i < |InOrder(m)| :: InOrder(m)[i].0 in m && InOrder(m)[i].1 == m[InOrder(m)[i].0]
  {
    var r := Entries(keys, m);
    assert InOrder(m) == r;
    forall i | 0 <= i < |r| ensures r[i].0 in m && r[i].1 == m[r[i].0] {
      assert r[i] == (keys[i], m[keys[i]]);
      assert keys[i] in keys;
    }
  }

  /** ... and every key of the map is visited. */
  lemma InOrderCovers(m: map<DWord, MountProto>)
    ensures forall v | v in m :: exists i | 0 <= i < |InOrder(m)| :: InOrder(m)[i].0 == v
  {
    InOrderCoversAt(m, Ascending(m.Keys));
  }

  lemma InOrderCoversAt(m: map<DWord, MountProto>, keys: seq<DWord>)
    requires keys == Ascending(m.Keys)
    ensures forall v | v in m :: exists i | 0 <= i < |InOrder(m)| :: InOrder(m)[i].0 == v
  {
    var r := Entries(keys, m);
    assert InOrder(m) == r;
    forall v | v in m ensures exists i | 0 <= i < |r| :: r[i].0 == v {
      assert v in m.Keys;
      var i :| 0 <= i < |keys| && keys[i] == v;
      assert r[i].0 == v;
    }
  }

  /** The entries of `m` under the given keys, in the order of the keys. */
  function Entries(keys: seq<DWord>, m: map<DWord, MountProto>): (r: seq<(DWord, MountProto)>)
    requires forall k | k in keys :: k in m
    ensures |r| == |keys|
    ensures forall i | 0 <= i < |r| :: r[i] == (keys[i], m[keys[i]])
  {
    if keys == [] then [] else [(keys[0], m[keys[0]])] + Entries(keys[1..], m)
  }

  /** `ps` holds a copy of each of the first `n` entries of `table`, in order. */
  ghost predicate CopiesOf(ps: seq<MountProto>, table: seq<MountTable>, n: int)
  {
    n == |ps| <= |table| && forall k | 0 <= k < n :: ps[k].table == table[k]
  }

  // ---------------------------------------------------------------------
  // CMountManager
  // ---------------------------------------------------------------------

  /** The mount registry: a vnum index and a name index over the prototypes it allocated. */
  class Manager {
    var byVnum: map<DWord, MountProto>
    var byName: map<string, MountProto>
    /** The prototypes allocated by the last load, in table order (empty after Destroy). */
    ghost var loaded: seq<MountProto>

    /** Both indexes are what loading `loaded` in order produces. */
    ghost predicate Valid()
      reads this
    {
      byVnum == VnumIndex(loaded) && byName == NameIndex(loaded)
    }

    constructor ()
      ensures Valid() && loaded == [] && byVnum == map[] && byName == map[]
    {
      byVnum := map[];
      byName := map[];
      loaded := [];
    }

    /** Forgets every loaded prototype; both indexes end up empty whatever they held. */
    method Destroy()
      modifies this
      ensures Valid() && loaded == [] && byVnum == map[] && byName == map[]
    {
      byVnum := map[];
      byName := map[];
      loaded := [];
    }

    /** Allocates one prototype for `t` and indexes it by vnum and by non-empty name. */
    method Load(t: MountTable) returns (proto: MountProto)
      requires Valid()
      modifies this
      ensures Valid()
      ensures fresh(proto) && proto.table == t
      ensures loaded == old(loaded) + [proto]
    {
      proto := new MountProto(t);
      LoadStep(loaded, proto);
      byVnum := byVnum[proto.GetVnum() := proto];
      if |proto.GetName()| > 0 {
        byName := byName[proto.GetName() := proto];
      }
      loaded := loaded + [proto];
    }

    /**
     * Clears both indexes, then allocates one prototype per entry of
     * table[..size] in order and indexes it by vnum and, if its name is not
     * empty, by name.  A non-positive size loads nothing.
     */
    method Initialize(table: seq<MountTable>, size: int) returns (ok: bool)
      requires size <= |table|
      modifies this
      ensures ok
      ensures Valid()
      ensures CopiesOf(loaded, table, if size < 0 then 0 else size)
      ensures forall k | 0 <= k < |loaded| :: fresh(loaded[k])
      ensures forall j, k | 0 <= j < k < |loaded| :: loaded[j] != loaded[k]
      ensures |byVnum| == |Vnums(TablesOf(loaded))| <= |loaded|
    {
      Destroy();
      var i := 0;
      while i < size
        invariant 0 <= i && (i <= size || i == 0)
        invariant Valid()
        invariant CopiesOf(loaded, table, i)
        invariant forall k | 0 <= k < i :: fresh(loaded[k])
        invariant forall j, k | 0 <= j < k < i :: loaded[j] != loaded[k]
      {
        var proto := Load(table[i]);
        i := i + 1;
      }
      VnumIndexSize(loaded);
      ok := true;
    }

    /**
     * Lookup by vnum: null when no loaded entry has vnum `v`, otherwise the
     * prototype of the last entry that has it.
     */
    function Get(v: DWord): (r: MountProto?)
      reads this
      requires Valid()
      ensures r == null <==> forall i | 0 <= i < |loaded| :: loaded[i].GetVnum() != v
      ensures r != null ==>
        exists i | 0 <= i < |loaded| :: r == loaded[i] && r.GetVnum() == v && LastWithVnum(TablesOf(loaded), i)
    {
      VnumIndexFollowsSlots(loaded);
      VnumSlotsLastWins(TablesOf(loaded), v);
      if v in byVnum then byVnum[v] else null
    }

    /**
     * Lookup by name (None stands for a null pointer): null for a null or
     * empty name or when no loaded entry has that name, otherwise the
     * prototype of the last entry that has it.
     */
    function GetByName(name: Option<CString>): (r: MountProto?)
      reads this
      requires Valid()
      ensures name.None? || name.value == [] ==> r == null
      ensures name.Some? && name.value != [] ==>
        (r == null <==> forall i | 0 <= i < |loaded| :: loaded[i].GetName() != name.value)
      ensures r != null ==>
        && name.Some?
        && exists i | 0 <= i < |loaded| :: r == loaded[i] && r.GetName() == name.value && LastWithName(TablesOf(loaded), i)
    {
      if name.None? || |name.value| == 0 then null
      else
        NameIndexFollowsSlots(loaded);
        NameSlotsLastWins(TablesOf(loaded), name.value);
        if name.value in byName then byName[name.value] else null
    }

    /**
     * What begin()..end() visits: the entries of the vnum index only, in
     * ascending vnum order, each with the prototype its vnum leads to.
     */
    ghost function Iteration(): (r: seq<(DWord, MountProto)>)
      reads this
      requires Valid()
      ensures |r| == |byVnum|
      ensures forall i, j | 0 <= i < j < |r| :: r[i].0 < r[j].0
      ensures forall i | 0 <= i < |r| :: r[i].0 in byVnum && r[i].1 == byVnum[r[i].0] && r[i].1.GetVnum() == r[i].0
      ensures forall v | v in byVnum :: exists i | 0 <= i < |r| :: r[i].0 == v
    {
      VnumIndexKeysMatch(loaded);
      InOrderAscending(byVnum);
      InOrderValues(byVnum);
      InOrderCovers(byVnum);
      InOrder(byVnum)
    }
  }
}
