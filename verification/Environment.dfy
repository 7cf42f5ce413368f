/** Building the child's environment block: inherited variables and KEY=VALUE items go
    into an ordered map that is then written out in key order.

    The ordered map is a strictly sorted list of entries; `Assigned` is the unordered
    reference, a left-to-right overlay. */
module Environment {
  import opened Ptyx

  type Entry = (Bytes, Bytes)

  const EQUALS: byte := 61

  datatype Mode = Inherit | Overlay | Replace | Clear

  predicate UsesInherited(mode: Mode) {
    mode.Inherit? || mode.Overlay?
  }

  predicate UsesItems(mode: Mode) {
    mode.Overlay? || mode.Replace?
  }

  // ----- byte order of keys

  predicate Less(a: Bytes, b: Bytes) {
    b != [] && (a == [] || a[0] < b[0] || (a[0] == b[0] && Less(a[1..], b[1..])))
  }

  lemma {:induction false} LessTransitive(a: Bytes, b: Bytes, c: Bytes)
    requires Less(a, b) && Less(b, c)
    ensures Less(a, c)
  {
    if a != [] && a[0] == b[0] == c[0] {
      LessTransitive(a[1..], b[1..], c[1..]);
    }
  }

  lemma {:induction false} LessTotal(a: Bytes, b: Bytes)
    ensures a == b || Less(a, b) || Less(b, a)
    ensures !(Less(a, b) && Less(b, a)) && !Less(a, a)
  {
    if a != [] && b != [] {
      LessTotal(a[1..], b[1..]);
      if a[1..] == b[1..] && a[0] == b[0] {
        assert a == [a[0]] + a[1..] == b;
      }
    }
    if a != [] {
      LessTotal(a[1..], a[1..]);
    }
  }

  /** The order is that of the first byte that differs, and a key comes before its own
      extensions; with totality this is all there is to it. */
  lemma {:induction false} LessIsLexicographic(prefix: Bytes, x: byte, y: byte, a: Bytes, b: Bytes)
    ensures Less(prefix, prefix + [x] + a)
    ensures x < y ==> Less(prefix + [x] + a, prefix + [y] + b)
  {
    var longer := prefix + [x] + a;
    var other := prefix + [y] + b;
    if prefix != [] {
      LessIsLexicographic(prefix[1..], x, y, a, b);
      assert longer[1..] == prefix[1..] + [x] + a;
      assert other[1..] == prefix[1..] + [y] + b;
    }
  }

  // ----- the ordered map

  ghost predicate Sorted(entries: seq<Entry>) {
    forall i, j | 0 <= i < j < |entries| :: Less(entries[i].0, entries[j].0)
  }

  function Insert(entries: seq<Entry>, key: Bytes, value: Bytes): seq<Entry> {
    if entries == [] || Less(key, entries[0].0) then [(key, value)] + entries
    else if entries[0].0 == key then [(key, value)] + entries[1..]
    else [entries[0]] + Insert(entries[1..], key, value)
  }

  /** The overlay of pairs in order: later pairs override earlier ones. */
  function Assigned(pairs: seq<Entry>): map<Bytes, Bytes> {
    if pairs == [] then map[]
    else Assigned(pairs[..|pairs| - 1])[pairs[|pairs| - 1].0 := pairs[|pairs| - 1].1]
  }

  lemma {:induction false} AssignedIsLast(pairs: seq<Entry>, key: Bytes)
    ensures key in Assigned(pairs) <==> exists i :: 0 <= i < |pairs| && pairs[i].0 == key
    ensures key in Assigned(pairs) ==>
              exists i :: 0 <= i < |pairs| && pairs[i] == (key, Assigned(pairs)[key]) && NoneAfter(pairs, i, key)
  {
    if pairs != [] {
      var before, last := pairs[..|pairs| - 1], |pairs| - 1;
      AssignedIsLast(before, key);
      if pairs[last].0 == key {
        assert pairs[last] == (key, Assigned(pairs)[key]) && NoneAfter(pairs, last, key);
      } else if key in Assigned(before) {
        var i :| 0 <= i < |before| && before[i] == (key, Assigned(before)[key]) && NoneAfter(before, i, key);
        assert pairs[i] == (key, Assigned(pairs)[key]) && NoneAfter(pairs, i, key);
      }
    }
  }

  ghost predicate NoneAfter(pairs: seq<Entry>, i: nat, key: Bytes) {
    forall j | i < j < |pairs| :: pairs[j].0 != key
  }

  /** A sorted list holds exactly the pairs of a map. */
  ghost predicate Holds(entries: seq<Entry>, m: map<Bytes, Bytes>) {
    && Sorted(entries)
    && (forall i | 0 <= i < |entries| :: entries[i].0 in m && m[entries[i].0] == entries[i].1)
    && (forall key | key in m :: exists i :: 0 <= i < |entries| && entries[i].0 == key)
  }

  /** Inserting puts the pair in, keeps every other key's pair, and keeps the order. */
  lemma {:induction false} InsertMembers(entries: seq<Entry>, key: Bytes, value: Bytes)
    requires Sorted(entries)
    ensures var r := Insert(entries, key, value);
            && (key, value) in r
            && (forall e | e in entries && e.0 != key :: e in r)
            && (forall e | e in r :: e == (key, value) || (e in entries && e.0 != key))
            && Sorted(r)
  {
    var r := Insert(entries, key, value);
    if entries != [] {
      var first := entries[0].0;
      LessTotal(key, first);
      if Less(key, first) {
        forall i | 0 <= i < |entries| ensures Less(key, entries[i].0) && entries[i].0 != key {
          if i > 0 { LessTransitive(key, first, entries[i].0); }
          LessTotal(key, entries[i].0);
        }
      } else if first == key {
        forall i | 0 < i < |entries| ensures entries[i].0 != key {
          LessTotal(key, entries[i].0);
        }
        assert r == [(key, value)] + entries[1..];
      } else {
        var rest := Insert(entries[1..], key, value);
        InsertMembers(entries[1..], key, value);
        assert r == [entries[0]] + rest;
        forall j | 0 <= j < |rest| ensures Less(first, rest[j].0) {
          assert rest[j] in rest;
          if rest[j] != (key, value) {
            var k :| 0 <= k < |entries[1..]| && entries[1..][k] == rest[j];
            assert entries[k + 1] == rest[j];
          }
        }
        SortedCons(entries[0], rest);
      }
    }
  }

  lemma SortedCons(e: Entry, rest: seq<Entry>)
    requires Sorted(rest) && forall j | 0 <= j < |rest| :: Less(e.0, rest[j].0)
    ensures Sorted([e] + rest)
  {
  }

  lemma InsertHolds(entries: seq<Entry>, m: map<Bytes, Bytes>, key: Bytes, value: Bytes)
    requires Holds(entries, m)
    ensures Holds(Insert(entries, key, value), m[key := value])
  {
    InsertMembers(entries, key, value);
    var r, m' := Insert(entries, key, value), m[key := value];
    forall i | 0 <= i < |r| ensures r[i].0 in m' && m'[r[i].0] == r[i].1 {
      assert r[i] in r;
    }
    forall k | k in m' ensures exists i :: 0 <= i < |r| && r[i].0 == k {
      if k != key {
        var i :| 0 <= i < |entries| && entries[i].0 == k;
        assert entries[i] in r;
      }
    }
  }

  // ----- items

  function FirstEquals(bytes: Bytes): (r: Option<nat>)
    ensures r.Some? ==> r.value < |bytes| && bytes[r.value] == EQUALS && EQUALS !in bytes[..r.value]
    ensures r.None? ==> EQUALS !in bytes
  {
    if bytes == [] then None
    else if bytes[0] == EQUALS then Some(0)
    else
      var r := FirstEquals(bytes[1..]);
      if r.Some? then
        assert bytes[..r.value + 1] == [bytes[0]] + bytes[1..][..r.value];
        Some(r.value + 1)
      else None
  }

  lemma {:induction false} FirstEqualsIsFirst(bytes: Bytes, i: nat)
    requires i < |bytes| && bytes[i] == EQUALS
    ensures FirstEquals(bytes).Some? && FirstEquals(bytes).value <= i
  {
    if bytes[0] != EQUALS {
      FirstEqualsIsFirst(bytes[1..], i - 1);
    }
  }

  const NO_SEPARATOR := PtyxError(InvalidArgument, "environment entry must be KEY=VALUE")
  const EMPTY_KEY := PtyxError(InvalidArgument, "environment key must not be empty")
  const HAS_NUL := PtyxError(InvalidArgument, "environment key and value must not contain NUL")

  function Parse(item: Bytes): Result<Entry, PtyxError> {
    var eq := FirstEquals(item);
    if eq.None? then Err(NO_SEPARATOR)
    else if eq.value == 0 then Err(EMPTY_KEY)
    else Ok((item[..eq.value], item[eq.value + 1..]))
  }

  /** An item is accepted exactly if it has an '=' and does not begin with one; its key is
      what comes before the first. The two errors tell the two ways to fail apart. */
  lemma ParseAccepts(item: Bytes)
    ensures Parse(item).Ok? <==> EQUALS in item && item[0] != EQUALS
    ensures Parse(item) == Err(PtyxError(InvalidArgument, "environment entry must be KEY=VALUE")) <==> EQUALS !in item
    ensures Parse(item) == Err(PtyxError(InvalidArgument, "environment key must not be empty")) <==>
              item != [] && item[0] == EQUALS
  {
    assert NO_SEPARATOR != EMPTY_KEY by { DistinctMessages(); }
    if EQUALS in item {
      var i :| 0 <= i < |item| && item[i] == EQUALS;
      FirstEqualsIsFirst(item, i);
    }
  }

  lemma DistinctMessages()
    ensures NO_SEPARATOR != EMPTY_KEY
  {
    assert NO_SEPARATOR.message[12] == 'e' && EMPTY_KEY.message[12] == 'k';
  }

  function Join(e: Entry): Bytes {
    e.0 + [EQUALS] + e.1
  }

  /** Splitting a written entry at its first '=' gives its key and value back exactly
      when the key has no '='. */
  lemma SplitRecovers(e: Entry)
    ensures var eq := FirstEquals(Join(e));
            && eq.Some?
            && ((Join(e)[..eq.value], Join(e)[eq.value + 1..]) == e <==> EQUALS !in e.0)
  {
    var joined, eq := Join(e), FirstEquals(Join(e));
    FirstEqualsIsFirst(joined, |e.0|);
    if eq.value < |e.0| {
      assert joined[eq.value] == e.0[eq.value];
    } else {
      assert joined[..eq.value] == e.0 && joined[eq.value + 1..] == e.1;
      forall i | 0 <= i < |e.0| ensures e.0[i] != EQUALS {
        assert joined[..eq.value][i] == e.0[i];
      }
    }
  }

  /** A parsed item has a non-empty key without '=', and is the item written again. */
  lemma ParsedItem(item: Bytes)
    requires Parse(item).Ok?
    ensures var e := Parse(item).value; e.0 != [] && EQUALS !in e.0 && Join(e) == item
  {
  }

  ghost function Parsed(items: seq<Bytes>): seq<Entry>
    requires forall i | 0 <= i < |items| :: Parse(items[i]).Ok?
  {
    seq(|items|, i requires 0 <= i < |items| => Parse(items[i]).value)
  }

  ghost predicate WellFormed(mode: Mode, items: seq<Bytes>) {
    UsesItems(mode) ==> forall i | 0 <= i < |items| :: Parse(items[i]).Ok?
  }

  /** The variables the child sees. */
  ghost function Variables(mode: Mode, inherited: seq<Entry>, items: seq<Bytes>): map<Bytes, Bytes>
    requires WellFormed(mode, items)
  {
    Assigned((if UsesInherited(mode) then inherited else []) + (if UsesItems(mode) then Parsed(items) else []))
  }

  // ----- the builder

  method Extend(entries: seq<Entry>, ghost base: seq<Entry>, pairs: seq<Entry>) returns (r: seq<Entry>)
    requires Holds(entries, Assigned(base))
    ensures Holds(r, Assigned(base + pairs))
  {
    r := entries;
    assert base + pairs[..0] == base;
    for i := 0 to |pairs|
      invariant Holds(r, Assigned(base + pairs[..i]))
    {
      InsertHolds(r, Assigned(base + pairs[..i]), pairs[i].0, pairs[i].1);
      AssignedSnoc(base + pairs[..i], pairs[i]);
      assert base + pairs[..i + 1] == (base + pairs[..i]) + [pairs[i]];
      r := Insert(r, pairs[i].0, pairs[i].1);
    }
    assert pairs[..|pairs|] == pairs;
  }

  /** Inserts the parsed items, or stops at the first malformed one. */
  method AddItems(env: seq<Entry>, ghost base: seq<Entry>, items: seq<Bytes>)
    returns (r: Result<seq<Entry>, PtyxError>)
    requires Holds(env, Assigned(base))
    ensures r.Ok? <==> forall i | 0 <= i < |items| :: Parse(items[i]).Ok?
    ensures r.Ok? ==> Holds(r.value, Assigned(base + Parsed(items)))
    ensures r.Err? ==> FirstError(items, r.error)
  {
    hide Parse, Holds, Insert, Assigned;
    var entries := env;
    ghost var used: seq<Entry> := [];
    assert base + [] == base;
    for i := 0 to |items|
      invariant forall j | 0 <= j < i :: Parse(items[j]).Ok?
      invariant used == Parsed(items[..i]) && Holds(entries, Assigned(base + used))
    {
      var parsed := Parse(items[i]);
      if parsed.Err? {
        return Err(parsed.error);
      }
      AssignedSnoc(base + used, parsed.value);
      InsertHolds(entries, Assigned(base + used), parsed.value.0, parsed.value.1);
      assert base + (used + [parsed.value]) == (base + used) + [parsed.value];
      entries := Insert(entries, parsed.value.0, parsed.value.1);
      used := used + [parsed.value];
      assert used == Parsed(items[..i + 1]);
    }
    assert items[..|items|] == items;
    r := Ok(entries);
  }

  lemma AssignedSnoc(pairs: seq<Entry>, e: Entry)
    ensures Assigned(pairs + [e]) == Assigned(pairs)[e.0 := e.1]
  {
    assert (pairs + [e])[..|pairs|] == pairs;
  }

  ghost predicate FirstError(items: seq<Bytes>, error: PtyxError) {
    exists i :: 0 <= i < |items| && Parse(items[i]) == Err(error) && forall j | 0 <= j < i :: Parse(items[j]).Ok?
  }

  ghost predicate NulFree(e: Entry) {
    0 !in e.0 && 0 !in e.1
  }

  lemma NulInJoin(e: Entry)
    ensures 0 in Join(e) <==> !NulFree(e)
  {
    forall k | 0 <= k < |e.0| ensures Join(e)[k] == e.0[k] {}
    forall k | 0 <= k < |e.1| ensures Join(e)[|e.0| + 1 + k] == e.1[k] {}
  }

  /** Writes the entries out, or refuses them all if one contains NUL. */
  method WriteOut(env: seq<Entry>) returns (r: Result<seq<Bytes>, PtyxError>)
    ensures r.Ok? <==> forall i | 0 <= i < |env| :: NulFree(env[i])
    ensures r.Ok? ==> |r.value| == |env| && forall i | 0 <= i < |env| :: r.value[i] == Join(env[i])
    ensures r.Err? ==> r.error == HAS_NUL
  {
    var block := [];
    for i := 0 to |env|
      invariant |block| == i
      invariant forall j | 0 <= j < i :: block[j] == Join(env[j]) && NulFree(env[j])
    {
      var item := Join(env[i]);
      NulInJoin(env[i]);
      if 0 in item {
        return Err(HAS_NUL);
      }
      block := block + [item];
    }
    r := Ok(block);
  }

  lemma {:induction false} AssignedAppend(a: seq<Entry>, b: seq<Entry>)
    ensures Assigned(a + b) == Assigned(a) + Assigned(b)
  {
    if b == [] {
      assert a + b == a;
    } else {
      var before := b[..|b| - 1];
      AssignedAppend(a, before);
      assert (a + b)[..|a + b| - 1] == a + before;
    }
  }

  ghost predicate AllParse(items: seq<Bytes>) {
    forall i | 0 <= i < |items| :: Parse(items[i]).Ok?
  }

  ghost predicate AllNulFree(m: map<Bytes, Bytes>) {
    forall key | key in m :: NulFree((key, m[key]))
  }

  /** What `Build` promises for one block: exactly the variables of `m`, refused only for a
      NUL in one of them. */
  ghost predicate Gives(r: Result<seq<Bytes>, PtyxError>, entries: seq<Entry>, m: map<Bytes, Bytes>) {
    && (r.Ok? <==> AllNulFree(m))
    && (r.Ok? ==> Holds(entries, m))
  }

  /** Succeeds exactly when every item used is well formed and no variable contains NUL.
      The block then has one entry per variable, in strictly increasing key order: the
      inherited ones, those overridden by the items, the items alone, or none. The first
      malformed item decides the error, where items are used. */
  method Build(mode: Mode, inherited: seq<Entry>, items: seq<Bytes>)
    returns (r: Result<seq<Bytes>, PtyxError>, ghost entries: seq<Entry>)
    ensures r.Ok? <==> WellFormed(mode, items)
                       && forall key | key in Variables(mode, inherited, items) ::
                            NulFree((key, Variables(mode, inherited, items)[key]))
    ensures r.Ok? ==>
              && Holds(entries, Variables(mode, inherited, items))
              && |r.value| == |entries|
              && forall i | 0 <= i < |entries| :: r.value[i] == Join(entries[i])
    ensures r.Err? ==> if WellFormed(mode, items) then r.error == HAS_NUL else FirstError(items, r.error)
    ensures mode == Inherit ==> Gives(r, entries, Assigned(inherited))
    ensures mode == Overlay ==>
              if AllParse(items) then Gives(r, entries, Assigned(inherited) + Assigned(Parsed(items)))
              else r.Err? && FirstError(items, r.error)
    ensures mode == Replace ==>
              if AllParse(items) then Gives(r, entries, Assigned(Parsed(items)))
              else r.Err? && FirstError(items, r.error)
    ensures mode == Clear ==> r == Ok([])
  {
    hide Holds, NulFree, Join, Assigned, Parse;
    var env: seq<Entry> := [];
    ghost var base: seq<Entry> := if UsesInherited(mode) then inherited else [];
    entries := [];
    assert Holds([], Assigned([])) by { NothingHolds(); }
    if UsesInherited(mode) {
      env := Extend([], [], inherited);
      assert [] + inherited == inherited;
    }
    assert base + [] == base;
    if UsesItems(mode) {
      var added := AddItems(env, base, items);
      if added.Err? {
        return Err(added.error), [];
      }
      env := added.value;
    }
    entries := env;
    r := WriteOut(env);
    HoldsNulFree(env, Variables(mode, inherited, items));
    VariablesByMode(mode, inherited, items);
    hide Holds, NulFree, Join, Variables, WellFormed, Assigned, Parsed, Parse, Sorted;
    if mode == Clear {
      HoldsNothing(env);
    }
  }

  lemma NothingHolds()
    ensures Holds([], Assigned([]))
  {
  }

  lemma HoldsNothing(entries: seq<Entry>)
    requires Holds(entries, map[])
    ensures entries == []
  {
    if entries != [] {
      HoldsFirst(entries, map[]);
      assert false;
    }
  }

  lemma HoldsFirst(entries: seq<Entry>, m: map<Bytes, Bytes>)
    requires Holds(entries, m) && entries != []
    ensures entries[0].0 in m
  {
  }

  /** The variables of each mode, the mode given by name. */
  lemma VariablesByMode(mode: Mode, inherited: seq<Entry>, items: seq<Bytes>)
    requires WellFormed(mode, items)
    ensures mode == Inherit ==> Variables(mode, inherited, items) == Assigned(inherited)
    ensures mode == Overlay ==>
              AllParse(items) && Variables(mode, inherited, items) == Assigned(inherited) + Assigned(Parsed(items))
    ensures mode == Replace ==> AllParse(items) && Variables(mode, inherited, items) == Assigned(Parsed(items))
    ensures mode == Clear ==> Variables(mode, inherited, items) == map[]
  {
    assert inherited + [] == inherited;
    match mode
    case Overlay => AssignedAppend(inherited, Parsed(items));
    case Replace => assert [] + Parsed(items) == Parsed(items);
    case _ =>
  }

  lemma HoldsNulFree(env: seq<Entry>, m: map<Bytes, Bytes>)
    requires Holds(env, m)
    ensures (forall i | 0 <= i < |env| :: NulFree(env[i])) <==> (forall key | key in m :: NulFree((key, m[key])))
  {
    forall i | 0 <= i < |env| ensures env[i].0 in m && env[i] == (env[i].0, m[env[i].0]) {}
    if forall i | 0 <= i < |env| :: NulFree(env[i]) {
      forall key | key in m ensures NulFree((key, m[key])) {
        var i :| 0 <= i < |env| && env[i].0 == key;
        assert env[i] == (key, m[key]);
      }
    }
  }
}
