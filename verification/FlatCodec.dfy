/**
 * The codec between nested messages and flat maps, whose keys are paths (src/dev_codec_flat.erl:17-77).
 * `order` is the order in which maps:fold visits the keys of a map, which Erlang leaves open.
 */
module FlatCodec {
  import opened Bytes
  import opened Options

  /** Keys are binaries or atoms. */
  datatype Key = Text(bytes: Bytes) | Atom(name: Bytes)

  datatype Msg = Binary(bytes: Bytes) | Map(entries: Entries)

  type Entries = map<Key, Msg>

  type Order = Entries -> seq<Key>

  /** The order lists the keys of every map, each once. */
  ghost predicate IsOrder(order: Order) {
    forall e: Entries :: Lists(order(e), e)
  }

  predicate Lists(keys: seq<Key>, e: Entries) {
    && (forall k <- keys :: k in e)
    && (forall k <- e.Keys :: k in keys)
    && (forall i, j | 0 <= i < j < |keys| :: keys[i] != keys[j])
  }

  ghost function SomeList(e: Entries): (keys: seq<Key>)
    ensures Lists(keys, e)
    decreases |e|
  {
    if e == map[] then []
    else
      var k :| k in e;
      var rest := SomeList(e - {k});
      assert forall x <- e.Keys :: x == k || x in (e - {k}).Keys;
      rest + [k]
  }

  //////////////////////////////////////////////////////////////////////////////
  // Paths
  //////////////////////////////////////////////////////////////////////////////

  const SLASH: Byte := 47

  predicate IsName(b: Bytes) { b != [] && SLASH !in b }

  predicate AreNames(p: seq<Bytes>) { forall k <- p :: IsName(k) }

  function FirstSlash(b: Bytes): (n: nat)
    ensures n <= |b| && SLASH !in b[..n]
    ensures n < |b| ==> b[n] == SLASH
  {
    if b == [] || b[0] == SLASH then 0
    else
      var n := FirstSlash(b[1..]);
      assert b[..n + 1] == [b[0]] + b[1..][..n];
      n + 1
  }

  /** The non-empty parts between slashes (src/hb_path.erl:252-261). */
  function Parts(b: Bytes): (p: seq<Bytes>)
    ensures AreNames(p)
    decreases |b|
  {
    if b == [] then []
    else if b[0] == SLASH then Parts(b[1..])
    else var n := FirstSlash(b); [b[..n]] + Parts(b[n..])
  }

  function Join(p: seq<Bytes>): Bytes {
    if p == [] then [] else if |p| == 1 then p[0] else p[0] + [SLASH] + Join(p[1..])
  }

  function NonEmpty(p: seq<Bytes>): seq<Bytes> {
    if p == [] then [] else (if p[0] == [] then [] else [p[0]]) + NonEmpty(p[1..])
  }

  /** A normalized key: an atom is its name (src/hb_ao.erl:1175-1177). */
  function Normal(k: Key): Bytes {
    match k
    case Text(b) => b
    case Atom(name) => name
  }

  function Names(p: seq<Key>): (names: seq<Bytes>)
    ensures |names| == |p| && forall i | 0 <= i < |p| :: names[i] == Normal(p[i])
  {
    if p == [] then [] else [Normal(p[0])] + Names(p[1..])
  }

  function Texts(p: seq<Bytes>): seq<Key> { if p == [] then [] else [Text(p[0])] + Texts(p[1..]) }

  predicate IsNamed(k: Key) { k.Text? && IsName(k.bytes) }

  predicate IsPath(p: seq<Key>) { forall k <- p :: IsNamed(k) }

  /** Keys joined by slashes. */
  function JoinPath(p: seq<Key>): Key { Text(Join(Names(p))) }

  /** src/hb_path.erl:278-303. */
  function ToBinary(p: seq<Key>): Key { Text(Join(Parts(Join(NonEmpty(Names(p)))))) }

  const UNDEFINED: Key := Atom(Ascii("undefined"))

  /** The path of a key (src/hb_path.erl:246-272). The path of a single slash is empty; any other key
      without a part has the path of the atom `undefined`. */
  function Path(k: Key): (p: seq<Key>)
    ensures p == [] <==> k == Text([SLASH])
  {
    match k
    case Atom(_) => [k]
    case Text(b) => if b == [SLASH] then [] else if Parts(b) == [] then [UNDEFINED] else Texts(Parts(b))
  }

  lemma {:induction false} SlashEnds(name: Bytes, rest: Bytes)
    requires IsName(name)
    requires rest == [] || rest[0] == SLASH
    ensures FirstSlash(name + rest) == |name|
  {
    if |name| == 1 {
      assert (name + rest)[1..] == rest;
    } else {
      assert (name + rest)[1..] == name[1..] + rest;
      assert SLASH !in name[1..];
      SlashEnds(name[1..], rest);
    }
  }

  lemma {:induction false} PartsOfName(name: Bytes, rest: Bytes)
    requires IsName(name)
    requires rest == [] || rest[0] == SLASH
    ensures Parts(name + rest) == [name] + Parts(rest)
  {
    var b := name + rest;
    SlashEnds(name, rest);
    assert b[0] == name[0];
    assert b[..|name|] == name && b[|name|..] == rest;
  }

  lemma {:induction false} PartsOfJoin(p: seq<Bytes>)
    requires AreNames(p)
    ensures Parts(Join(p)) == p
  {
    if p != [] {
      var rest := if |p| == 1 then [] else [SLASH] + Join(p[1..]);
      assert Join(p) == p[0] + rest;
      PartsOfName(p[0], rest);
      if |p| > 1 {
        PartsOfJoin(p[1..]);
        assert rest[1..] == Join(p[1..]);
      }
    }
  }

  lemma JoinNotEmpty(p: seq<Bytes>)
    requires AreNames(p) && p != []
    ensures Join(p) != []
  {
    assert IsName(p[0]);
  }

  /** Two names with a slash, byte 47, between them. */
  lemma PathOfTwo(a: Bytes, b: Bytes)
    requires a != [] && b != [] && 47 !in a && 47 !in b
    ensures Path(Text(a + [47] + b)) == [Text(a), Text(b)] && JoinPath([Text(a), Text(b)]) == Text(a + [47] + b)
  {
    var p := [Text(a), Text(b)];
    assert p[1..] == [Text(b)] && p[1..][1..] == [];
    assert Names(p) == [a, b] && [a, b][1..] == [b];
    assert Join([a, b]) == a + [SLASH] + b;
    assert IsPath(p);
    PathOfJoin(p);
  }

  lemma {:induction false} NamesOfPath(p: seq<Key>)
    requires IsPath(p)
    ensures AreNames(Names(p)) && Texts(Names(p)) == p
  {
    if p != [] {
      NamesOfPath(p[1..]);
      assert IsNamed(p[0]);
      assert Names(p)[1..] == Names(p[1..]);
    }
  }

  lemma {:induction false} TextsOfNames(p: seq<Bytes>)
    requires AreNames(p)
    ensures IsPath(Texts(p)) && Names(Texts(p)) == p
  {
    if p != [] {
      TextsOfNames(p[1..]);
      assert Texts(p)[1..] == Texts(p[1..]);
    }
  }

  lemma TextPath(k: Key)
    requires k.Text?
    ensures IsPath(Path(k)) || Path(k) == [UNDEFINED]
  {
    TextsOfNames(Parts(k.bytes));
  }

  lemma {:induction false} PathOfJoin(p: seq<Key>)
    requires IsPath(p) && p != []
    ensures Path(JoinPath(p)) == p
  {
    NamesOfPath(p);
    PartsOfJoin(Names(p));
    assert Parts([SLASH]) == [];
  }

  lemma NameToBinary(k: Key)
    requires IsNamed(k)
    ensures ToBinary([k]) == k == JoinPath([k])
  {
    var names := Names([k]);
    assert names == [k.bytes] && NonEmpty(names) == names;
    PartsOfJoin(names);
  }

  lemma PathToBinary(k: Key, p: seq<Key>)
    requires IsNamed(k) && IsPath(p) && p != []
    ensures ToBinary([k, JoinPath(p)]) == JoinPath([k] + p)
  {
    var (name, names) := (k.bytes, Names(p));
    NamesOfPath(p);
    JoinNotEmpty(names);
    assert Names([k, JoinPath(p)]) == [name, Join(names)];
    assert Names([k] + p) == [name] + names;
    JoinOfTwo(name, names);
    PartsOfJoin([name] + names);
  }

  lemma JoinOfTwo(name: Bytes, names: seq<Bytes>)
    requires IsName(name) && names != [] && Join(names) != []
    ensures Join(NonEmpty([name, Join(names)])) == Join([name] + names)
  {
    assert [name, Join(names)][1..] == [Join(names)];
    assert NonEmpty([Join(names)]) == [Join(names)];
    assert NonEmpty([name, Join(names)]) == [name, Join(names)];
    assert Join([Join(names)]) == Join(names);
    assert ([name] + names)[1..] == names;
  }

  //////////////////////////////////////////////////////////////////////////////
  // From flat to nested
  //////////////////////////////////////////////////////////////////////////////

  /** src/hb_util.erl:332-347; setting below a binary fails. */
  function DeepSet(path: seq<Key>, value: Msg, e: Entries): Option<Entries> {
    if path == [] then None
    else
      var k := path[0];
      if |path| == 1 then
        if k in e && e[k].Map? && value.Map? then Some(e[k := Map(e[k].entries + value.entries)])
        else Some(e[k := value])
      else
        var sub := if k in e then e[k] else Map(map[]);
        if sub.Binary? then None
        else
          var inner := DeepSet(path[1..], value, sub.entries);
          if inner.None? then None else Some(e[k := Map(inner.value)])
  }

  function From(order: Order, m: Msg): Option<Msg>
    requires IsOrder(order)
    decreases m, 1, 0
  {
    if m.Binary? then Some(m)
    else
      assert Lists(order(m.entries), m.entries);
      var e := FromEntries(order, m, order(m.entries));
      if e.None? then None else Some(Map(e.value))
  }

  /** The fold over the given keys of `m`. */
  function FromEntries(order: Order, m: Msg, keys: seq<Key>): Option<Entries>
    requires IsOrder(order)
    requires m.Map? && forall k <- keys :: k in m.entries
    decreases m, 0, |keys|
  {
    if keys == [] then Some(map[])
    else
      var last := keys[|keys| - 1];
      var e := FromEntries(order, m, keys[..|keys| - 1]);
      var value := From(order, m.entries[last]);
      if e.None? || value.None? then None else DeepSet(Path(last), value.value, e.value)
  }

  //////////////////////////////////////////////////////////////////////////////
  // From nested to flat
  //////////////////////////////////////////////////////////////////////////////

  function To(order: Order, m: Msg): Msg
    requires IsOrder(order)
    decreases m, 1, 0
  {
    if m.Binary? then m
    else
      assert Lists(order(m.entries), m.entries);
      Map(ToEntries(order, m, order(m.entries)))
  }

  /** The fold over the given keys of `m`. */
  function ToEntries(order: Order, m: Msg, keys: seq<Key>): Entries
    requires IsOrder(order)
    requires m.Map? && forall k <- keys :: k in m.entries
    decreases m, 0, |keys|
  {
    if keys == [] then map[]
    else
      var last := keys[|keys| - 1];
      var acc := ToEntries(order, m, keys[..|keys| - 1]);
      var flat := To(order, m.entries[last]);
      if flat.Binary? then acc[ToBinary([last]) := flat]
      else
        assert Lists(order(flat.entries), flat.entries);
        PutAll(last, flat.entries, order(flat.entries), acc)
  }

  /** Puts the given keys of `sub`, each below `k`. */
  function PutAll(k: Key, sub: Entries, keys: seq<Key>, acc: Entries): Entries
    requires forall x <- keys :: x in sub
    decreases |keys|
  {
    if keys == [] then acc
    else
      var last := keys[|keys| - 1];
      PutAll(k, sub, keys[..|keys| - 1], acc)[ToBinary([k, last]) := sub[last]]
  }

  //////////////////////////////////////////////////////////////////////////////
  // What a message holds
  //////////////////////////////////////////////////////////////////////////////

  /** The binary at the end of a path. */
  function Lookup(m: Msg, p: seq<Key>): Option<Bytes>
    decreases p
  {
    if m.Binary? then if p == [] then Some(m.bytes) else None
    else if p == [] || p[0] !in m.entries then None
    else Lookup(m.entries[p[0]], p[1..])
  }

  /** Every key is a name, and no map inside is empty. */
  predicate Clean(m: Msg)
    decreases m
  {
    m.Map? ==> forall k <- m.entries.Keys :: IsNamed(k) && m.entries[k] != Map(map[]) && Clean(m.entries[k])
  }

  /** No map inside is empty. */
  predicate Full(m: Msg)
    decreases m
  {
    m.Map? ==> forall k <- m.entries.Keys :: m.entries[k] != Map(map[]) && Full(m.entries[k])
  }

  lemma {:induction false} CleanIsFull(m: Msg)
    requires Clean(m)
    ensures Full(m)
    decreases m
  {
    if m.Map? {
      forall k | k in m.entries ensures Full(m.entries[k]) {
        CleanIsFull(m.entries[k]);
      }
    }
  }

  /** Clean, but for a binary under the atom `undefined`. */
  predicate Tidy(m: Msg) {
    m.Map? ==>
      forall k <- m.entries.Keys ::
        if k == UNDEFINED then m.entries[k].Binary?
        else IsNamed(k) && m.entries[k] != Map(map[]) && Clean(m.entries[k])
  }

  predicate IsFlat(e: Entries) { forall k <- e.Keys :: e[k].Binary? }

  /** A message that is not an empty map holds a binary. */
  lemma {:induction false} SomeBinary(m: Msg) returns (p: seq<Key>)
    requires Full(m) && m != Map(map[])
    ensures Lookup(m, p).Some?
    decreases m
  {
    if m.Binary? {
      p := [];
    } else {
      var k :| k in m.entries;
      var q := SomeBinary(m.entries[k]);
      p := [k] + q;
      assert p[1..] == q;
    }
  }

  ghost predicate SameBinaries(m: Msg, n: Msg) {
    forall p: seq<Key> :: Lookup(m, p) == Lookup(n, p)
  }

  lemma {:induction false} SameBelow(m: Msg, n: Msg, k: Key)
    requires Full(m) && m.Map? && n.Map? && SameBinaries(m, n)
    requires k in m.entries
    ensures k in n.entries && SameBinaries(m.entries[k], n.entries[k])
    ensures m.entries[k].Map? == n.entries[k].Map?
  {
    var q := SomeBinary(m.entries[k]);
    assert ([k] + q)[1..] == q;
    assert Lookup(m, [k] + q).Some?;
    assert Lookup(n, [k] + q).Some?;
    forall p: seq<Key>
      ensures Lookup(m.entries[k], p) == Lookup(n.entries[k], p)
    {
      assert ([k] + p)[1..] == p;
      assert Lookup(m, [k] + p) == Lookup(n, [k] + p);
    }
    assert Lookup(m.entries[k], []) == Lookup(n.entries[k], []);
  }

  /** A message without empty maps inside is known by the binaries in it. */
  lemma {:induction false} KnownByBinaries(m: Msg, n: Msg)
    requires Full(m) && Full(n) && SameBinaries(m, n) && m.Map? == n.Map?
    ensures m == n
    decreases m
  {
    if m.Binary? {
      assert Lookup(m, []) == Lookup(n, []);
    } else {
      forall k | k in m.entries
        ensures k in n.entries && m.entries[k] == n.entries[k]
      {
        SameBelow(m, n, k);
        KnownByBinaries(m.entries[k], n.entries[k]);
      }
      forall k | k in n.entries
        ensures k in m.entries
      {
        SameBelow(n, m, k);
      }
      assert m.entries == n.entries;
    }
  }

  //////////////////////////////////////////////////////////////////////////////
  // Setting a binary
  //////////////////////////////////////////////////////////////////////////////

  /** The path and everything above and below it is replaced, and nothing else changes. */
  lemma {:induction false} SetLookup(path: seq<Key>, b: Bytes, e: Entries, q: seq<Key>)
    requires DeepSet(path, Binary(b), e).Some?
    ensures Lookup(Map(DeepSet(path, Binary(b), e).value), q) ==
            if q == path then Some(b) else if path <= q || q <= path then None else Lookup(Map(e), q)
  {
    if q != [] && |path| > 1 {
      if q[0] == path[0] {
        var sub := if path[0] in e then e[path[0]].entries else map[];
        SetLookup(path[1..], b, sub, q[1..]);
        assert q == [q[0]] + q[1..] && path == [path[0]] + path[1..];
        assert path[1..] <= q[1..] <==> path <= q;
        assert q[1..] <= path[1..] <==> q <= path;
      }
    } else if q != [] && q[0] == path[0] {
      assert path == [q[0]];
      assert q[1..] == [] <==> q == path;
    }
  }

  /** Setting fails exactly if there is a binary above. */
  lemma {:induction false} SetSucceeds(path: seq<Key>, b: Bytes, e: Entries)
    requires path != []
    ensures DeepSet(path, Binary(b), e).Some? <==>
            forall n | 0 < n < |path| :: Lookup(Map(e), path[..n]).None?
  {
    if |path| > 1 {
      var k := path[0];
      forall n | 0 < n < |path|
        ensures Lookup(Map(e), path[..n]) == if k in e then Lookup(e[k], path[1..][..n - 1]) else None
      {
        assert path[..n][1..] == path[1..][..n - 1];
      }
      if k !in e {
        SetSucceeds(path[1..], b, map[]);
      } else if e[k].Map? {
        SetSucceeds(path[1..], b, e[k].entries);
        forall n | 0 < n < |path[1..]|
          ensures Lookup(Map(e), path[..n + 1]) == Lookup(e[k], path[1..][..n])
        {
        }
        assert Lookup(Map(e), path[..1]).None?;
      } else {
        assert Lookup(Map(e), path[..1]).Some?;
      }
    }
  }

  lemma {:induction false} SetFull(path: seq<Key>, b: Bytes, e: Entries)
    requires DeepSet(path, Binary(b), e).Some? && Full(Map(e))
    ensures Full(Map(DeepSet(path, Binary(b), e).value))
    ensures DeepSet(path, Binary(b), e).value != map[]
  {
    var r := DeepSet(path, Binary(b), e).value;
    assert path[0] in r;
    if |path| > 1 {
      var sub := if path[0] in e then e[path[0]].entries else map[];
      SetFull(path[1..], b, sub);
    }
  }

  lemma {:induction false} SetClean(path: seq<Key>, b: Bytes, e: Entries)
    requires DeepSet(path, Binary(b), e).Some?
    requires IsPath(path) && Clean(Map(e))
    ensures Clean(Map(DeepSet(path, Binary(b), e).value))
    ensures DeepSet(path, Binary(b), e).value != map[]
  {
    var r := DeepSet(path, Binary(b), e).value;
    assert path[0] in r;
    if |path| > 1 {
      var sub := if path[0] in e then e[path[0]].entries else map[];
      SetClean(path[1..], b, sub);
    }
  }

  lemma SetTidy(path: seq<Key>, b: Bytes, e: Entries)
    requires DeepSet(path, Binary(b), e).Some?
    requires (IsPath(path) || path == [UNDEFINED]) && Tidy(Map(e))
    ensures Tidy(Map(DeepSet(path, Binary(b), e).value))
  {
    var k := path[0];
    if |path| > 1 {
      assert IsNamed(k) && IsPath(path[1..]);
      SetClean(path[1..], b, if k in e then e[k].entries else map[]);
    }
  }

  //////////////////////////////////////////////////////////////////////////////
  // Reading a flat map
  //////////////////////////////////////////////////////////////////////////////

  /** No key is a single slash, and none leads to or through another one. */
  predicate PrefixFree(f: Entries) {
    && HasPaths(f)
    && (forall j <- f.Keys, k <- f.Keys | j != k :: !(Path(j) <= Path(k)))
  }

  /** Keys on one path have the same path and the same value. */
  predicate Consistent(f: Entries) {
    forall j <- f.Keys, k <- f.Keys | Path(j) <= Path(k) :: Path(j) == Path(k) && f[j] == f[k]
  }

  /** Every key stands for a path: none is a single slash. */
  predicate HasPaths(f: Entries) { Text([SLASH]) !in f }

  predicate Agreeing(f: Entries) { HasPaths(f) && Consistent(f) }

  /** What the keys give for a path. */
  function Filed(f: Entries, keys: seq<Key>, q: seq<Key>): (b: Option<Bytes>)
    requires IsFlat(f) && forall k <- keys :: k in f
    ensures b.Some? ==> exists k <- keys :: Path(k) == q && f[k].bytes == b.value
    decreases |keys|
  {
    if keys == [] then None
    else
      var last := keys[|keys| - 1];
      if Path(last) == q then Some(f[last].bytes) else Filed(f, keys[..|keys| - 1], q)
  }

  lemma {:induction false} FiledAt(f: Entries, keys: seq<Key>, k: Key)
    requires IsFlat(f) && Agreeing(f) && forall x <- keys :: x in f
    requires k in keys
    ensures Filed(f, keys, Path(k)) == Some(f[k].bytes)
    decreases |keys|
  {
    var last := keys[|keys| - 1];
    if last != k {
      FiledAt(f, keys[..|keys| - 1], k);
    }
  }

  ghost predicate Holds(e: Entries, f: Entries, keys: seq<Key>)
    requires IsFlat(f) && forall k <- keys :: k in f
  {
    forall q: seq<Key> :: Lookup(Map(e), q) == Filed(f, keys, q)
  }

  lemma FreeAbove(f: Entries, keys: seq<Key>, last: Key, e: Entries)
    requires IsFlat(f) && Agreeing(f) && last in f && forall k <- keys :: k in f
    requires Holds(e, f, keys)
    ensures DeepSet(Path(last), Binary(f[last].bytes), e).Some?
  {
    var path := Path(last);
    forall n | 0 < n < |path| ensures Lookup(Map(e), path[..n]).None? {
      assert Lookup(Map(e), path[..n]) == Filed(f, keys, path[..n]);
    }
    SetSucceeds(path, f[last].bytes, e);
  }

  lemma SetHoldsAt(f: Entries, keys: seq<Key>, last: Key, e: Entries, q: seq<Key>)
    requires IsFlat(f) && Agreeing(f) && last in f && forall k <- keys :: k in f
    requires Holds(e, f, keys) && DeepSet(Path(last), Binary(f[last].bytes), e).Some?
    ensures Lookup(Map(DeepSet(Path(last), Binary(f[last].bytes), e).value), q) == Filed(f, keys + [last], q)
  {
    SetLookup(Path(last), f[last].bytes, e, q);
    assert (keys + [last])[..|keys|] == keys;
    assert Lookup(Map(e), q) == Filed(f, keys, q);
  }

  lemma SetHolds(f: Entries, keys: seq<Key>, last: Key, e: Entries) returns (r: Entries)
    requires IsFlat(f) && Agreeing(f) && last in f && forall k <- keys :: k in f
    requires Holds(e, f, keys)
    ensures DeepSet(Path(last), Binary(f[last].bytes), e) == Some(r) && Holds(r, f, keys + [last])
  {
    FreeAbove(f, keys, last, e);
    r := DeepSet(Path(last), Binary(f[last].bytes), e).value;
    forall q: seq<Key> ensures Lookup(Map(r), q) == Filed(f, keys + [last], q) {
      SetHoldsAt(f, keys, last, e, q);
    }
  }

  /** One step of the fold. */
  lemma FoldStep(order: Order, f: Entries, keys: seq<Key>, k: Key)
    requires IsOrder(order) && IsFlat(f) && k in f && forall x <- keys :: x in f
    ensures
      FromEntries(order, Map(f), keys + [k])
      == (match FromEntries(order, Map(f), keys)
          case None => None
          case Some(e) => DeepSet(Path(k), Binary(f[k].bytes), e))
  {
    assert (keys + [k])[..|keys|] == keys;
    assert f[k].Binary? && From(order, f[k]) == Some(f[k]);
  }

  lemma HoldsNext(order: Order, f: Entries, keys: seq<Key>, last: Key, before: Entries) returns (e: Entries)
    requires IsOrder(order) && IsFlat(f) && Agreeing(f) && last in f && forall k <- keys :: k in f
    requires FromEntries(order, Map(f), keys) == Some(before) && Holds(before, f, keys)
    ensures FromEntries(order, Map(f), keys + [last]) == Some(e) && Holds(e, f, keys + [last])
  {
    FoldStep(order, f, keys, last);
    e := SetHolds(f, keys, last, before);
  }

  lemma {:induction false} FromHolds(order: Order, f: Entries, keys: seq<Key>) returns (e: Entries)
    requires IsOrder(order) && IsFlat(f) && Agreeing(f)
    requires forall k <- keys :: k in f
    ensures FromEntries(order, Map(f), keys) == Some(e) && Holds(e, f, keys)
    decreases |keys|
  {
    if keys == [] {
      e := map[];
    } else {
      var front, last := keys[..|keys| - 1], keys[|keys| - 1];
      assert keys == front + [last];
      var before := FromHolds(order, f, front);
      e := HoldsNext(order, f, front, last, before);
    }
  }

  /** No key stands for the atom `undefined` or is another atom. */
  predicate PlainKeys(f: Entries) { forall k <- f.Keys :: IsPath(Path(k)) }

  predicate TextKeys(f: Entries) { forall k <- f.Keys :: k.Text? }

  /** What is read from a flat map holds no empty map. */
  lemma {:induction false} FromIsFull(order: Order, f: Entries, keys: seq<Key>)
    requires IsOrder(order) && IsFlat(f)
    requires forall k <- keys :: k in f
    ensures FromEntries(order, Map(f), keys).Some? ==> Full(Map(FromEntries(order, Map(f), keys).value))
    decreases |keys|
  {
    if keys != [] && FromEntries(order, Map(f), keys).Some? {
      var front, last := keys[..|keys| - 1], keys[|keys| - 1];
      FromIsFull(order, f, front);
      assert f[last].Binary? && From(order, f[last]) == Some(f[last]);
      SetFull(Path(last), f[last].bytes, FromEntries(order, Map(f), front).value);
    }
  }

  lemma {:induction false} FromIsClean(order: Order, f: Entries, keys: seq<Key>)
    requires IsOrder(order) && IsFlat(f) && PlainKeys(f)
    requires forall k <- keys :: k in f
    ensures FromEntries(order, Map(f), keys).Some? ==> Clean(Map(FromEntries(order, Map(f), keys).value))
    decreases |keys|
  {
    if keys != [] && FromEntries(order, Map(f), keys).Some? {
      var front, last := keys[..|keys| - 1], keys[|keys| - 1];
      FromIsClean(order, f, front);
      assert f[last].Binary? && From(order, f[last]) == Some(f[last]);
      SetClean(Path(last), f[last].bytes, FromEntries(order, Map(f), front).value);
    }
  }

  lemma {:induction false} FromIsTidy(order: Order, f: Entries, keys: seq<Key>)
    requires IsOrder(order) && IsFlat(f) && TextKeys(f)
    requires forall k <- keys :: k in f
    ensures FromEntries(order, Map(f), keys).Some? ==> Tidy(Map(FromEntries(order, Map(f), keys).value))
    decreases |keys|
  {
    if keys != [] && FromEntries(order, Map(f), keys).Some? {
      var front, last := keys[..|keys| - 1], keys[|keys| - 1];
      FromIsTidy(order, f, front);
      assert f[last].Binary? && From(order, f[last]) == Some(f[last]);
      TextPath(last);
      SetTidy(Path(last), f[last].bytes, FromEntries(order, Map(f), front).value);
    }
  }

  /** Flat maps in which keys on one path agree are read, with the same result in every order. */
  lemma FromAnyOrder(order: Order, other: Order, f: Entries)
    requires IsOrder(order) && IsOrder(other) && IsFlat(f) && Agreeing(f)
    ensures From(order, Map(f)).Some? && From(order, Map(f)) == From(other, Map(f))
  {
    assert Lists(order(f), f) && Lists(other(f), f);
    var e := FromHolds(order, f, order(f));
    var d := FromHolds(other, f, other(f));
    FromIsFull(order, f, order(f));
    FromIsFull(other, f, other(f));
    forall q: seq<Key>
      ensures Lookup(Map(e), q) == Lookup(Map(d), q)
    {
      FiledAnyOrder(f, order(f), other(f), q);
    }
    KnownByBinaries(Map(e), Map(d));
  }

  lemma FiledAnyOrder(f: Entries, keys: seq<Key>, others: seq<Key>, q: seq<Key>)
    requires IsFlat(f) && Agreeing(f) && Lists(keys, f) && Lists(others, f)
    ensures Filed(f, keys, q) == Filed(f, others, q)
  {
    if k :| k in f && Path(k) == q {
      FiledAt(f, keys, k);
      FiledAt(f, others, k);
    }
  }

  //////////////////////////////////////////////////////////////////////////////
  // Writing a flat map
  //////////////////////////////////////////////////////////////////////////////

  predicate Canonical(k: Key) { IsPath(Path(k)) && Path(k) != [] && JoinPath(Path(k)) == k }

  /** Every entry of the flat map is a binary of the message at that path. */
  predicate Reflects(f: Entries, m: Msg) {
    forall x <- f.Keys :: Canonical(x) && f[x].Binary? && Lookup(m, Path(x)) == Some(f[x].bytes)
  }

  lemma {:induction false} PutAllReflects(m: Msg, k: Key, sub: Entries, keys: seq<Key>, acc: Entries)
    requires m.Map? && k in m.entries && IsNamed(k)
    requires forall x <- keys :: x in sub
    requires Reflects(sub, m.entries[k]) && Reflects(acc, m)
    ensures Reflects(PutAll(k, sub, keys, acc), m)
    decreases |keys|
  {
    if keys != [] {
      var last := keys[|keys| - 1];
      PutAllReflects(m, k, sub, keys[..|keys| - 1], acc);
      PathToBinary(k, Path(last));
      var path := [k] + Path(last);
      PathOfJoin(path);
      assert path[1..] == Path(last);
    }
  }

  lemma {:induction false} PutAllPuts(k: Key, sub: Entries, keys: seq<Key>, acc: Entries, x: Key)
    requires forall x <- keys :: x in sub
    requires x in acc || exists y <- keys :: x == ToBinary([k, y])
    ensures x in PutAll(k, sub, keys, acc)
    decreases |keys|
  {
    if keys != [] {
      var last := keys[|keys| - 1];
      if x != ToBinary([k, last]) {
        PutAllPuts(k, sub, keys[..|keys| - 1], acc, x);
      }
    }
  }

  lemma {:induction false} ToReflects(order: Order, m: Msg)
    requires IsOrder(order) && Clean(m) && m.Map?
    ensures Reflects(To(order, m).entries, m)
    decreases m, 1, 0
  {
    assert Lists(order(m.entries), m.entries);
    ToEntriesReflects(order, m, order(m.entries));
  }

  lemma {:induction false} ToEntriesReflects(order: Order, m: Msg, keys: seq<Key>)
    requires IsOrder(order) && Clean(m) && m.Map?
    requires forall k <- keys :: k in m.entries
    ensures Reflects(ToEntries(order, m, keys), m)
    decreases m, 0, |keys|
  {
    if keys != [] {
      var last := keys[|keys| - 1];
      var acc := ToEntries(order, m, keys[..|keys| - 1]);
      ToEntriesReflects(order, m, keys[..|keys| - 1]);
      if m.entries[last].Binary? {
        NameToBinary(last);
        PathOfJoin([last]);
      } else {
        ToReflects(order, m.entries[last]);
        var sub := To(order, m.entries[last]).entries;
        assert Lists(order(sub), sub);
        PutAllReflects(m, last, sub, order(sub), acc);
      }
    }
  }

  /** And every binary of the message is there. */
  lemma {:induction false} ToReaches(order: Order, m: Msg, p: seq<Key>)
    requires IsOrder(order) && Clean(m) && m.Map? && Lookup(m, p).Some?
    ensures IsPath(p) && p != [] && JoinPath(p) in To(order, m).entries
    decreases m, 1, 0
  {
    assert Lists(order(m.entries), m.entries);
    ToEntriesReaches(order, m, order(m.entries), p);
  }

  lemma {:induction false} ToEntriesReaches(order: Order, m: Msg, keys: seq<Key>, p: seq<Key>)
    requires IsOrder(order) && Clean(m) && m.Map? && Lookup(m, p).Some?
    requires forall k <- keys :: k in m.entries
    requires p[0] in keys
    ensures IsPath(p) && JoinPath(p) in ToEntries(order, m, keys)
    decreases m, 0, |keys|
  {
    var last := keys[|keys| - 1];
    var front := keys[..|keys| - 1];
    var acc := ToEntries(order, m, front);
    var flat := To(order, m.entries[last]);
    if p[0] == last {
      assert p == [last] + p[1..];
      if flat.Binary? {
        assert p == [last];
        NameToBinary(last);
      } else {
        ToReaches(order, m.entries[last], p[1..]);
        assert Lists(order(flat.entries), flat.entries);
        PathToBinary(last, p[1..]);
        PutAllPuts(last, flat.entries, order(flat.entries), acc, JoinPath(p));
      }
    } else {
      ToEntriesReaches(order, m, front, p);
      if flat.Map? {
        assert Lists(order(flat.entries), flat.entries);
        PutAllPuts(last, flat.entries, order(flat.entries), acc, JoinPath(p));
      }
    }
  }

  //////////////////////////////////////////////////////////////////////////////
  // Round trips
  //////////////////////////////////////////////////////////////////////////////

  /** No binary lies below another one. */
  lemma {:induction false} BinariesApart(m: Msg, p: seq<Key>, q: seq<Key>)
    requires Lookup(m, p).Some? && Lookup(m, q).Some? && p <= q
    ensures p == q
    decreases p
  {
    if p != [] {
      assert p[1..] <= q[1..];
      BinariesApart(m.entries[p[0]], p[1..], q[1..]);
      assert p == [p[0]] + p[1..] && q == [q[0]] + q[1..];
    }
  }

  predicate CanonicalKeys(f: Entries) { forall k <- f.Keys :: Canonical(k) }

  lemma {:induction false} ReflectedApart(f: Entries, m: Msg, j: Key, k: Key)
    requires Reflects(f, m) && j in f && k in f && Path(j) <= Path(k)
    ensures j == k
  {
    BinariesApart(m, Path(j), Path(k));
    assert Canonical(j) && Canonical(k);
  }

  lemma {:induction false} ReflectionIsPrefixFree(f: Entries, m: Msg)
    requires Reflects(f, m)
    ensures IsFlat(f) && PrefixFree(f) && CanonicalKeys(f)
  {
    forall j, k | j in f && k in f && j != k
      ensures !(Path(j) <= Path(k))
    {
      if Path(j) <= Path(k) {
        ReflectedApart(f, m, j, k);
      }
    }
  }

  /** `e` holds the binaries of `f` at their paths, and nothing else. */
  ghost predicate ReadAs(f: Entries, e: Entries)
    requires IsFlat(f)
  {
    && Full(Map(e))
    && (forall k <- f.Keys :: Lookup(Map(e), Path(k)) == Some(f[k].bytes))
    && (forall q: seq<Key> :: Lookup(Map(e), q).Some? ==> exists k <- f.Keys :: Path(k) == q)
  }

  lemma {:induction false} FromRead(order: Order, f: Entries) returns (e: Entries)
    requires IsOrder(order) && IsFlat(f) && Agreeing(f)
    ensures From(order, Map(f)) == Some(Map(e)) && ReadAs(f, e) && (PlainKeys(f) ==> Clean(Map(e)))
  {
    assert Lists(order(f), f);
    e := FromHolds(order, f, order(f));
    FromIsFull(order, f, order(f));
    if PlainKeys(f) {
      FromIsClean(order, f, order(f));
    }
    forall k | k in f
      ensures Lookup(Map(e), Path(k)) == Some(f[k].bytes)
    {
      FiledAt(f, order(f), k);
    }
    forall q: seq<Key> | Lookup(Map(e), q).Some?
      ensures exists k <- f.Keys :: Path(k) == q
    {
      assert Filed(f, order(f), q).Some?;
      var k :| k in order(f) && Path(k) == q;
      assert k in f.Keys;
    }
  }

  lemma {:induction false} NestedBack(from: Order, to: Order, m: Msg)
    requires IsOrder(from) && IsOrder(to) && Clean(m)
    ensures From(from, To(to, m)) == Some(m)
  {
    if m.Map? {
      var f := To(to, m).entries;
      ToReflects(to, m);
      ReflectionIsPrefixFree(f, m);
      var e := FromRead(from, f);
      forall q: seq<Key>
        ensures Lookup(Map(e), q) == Lookup(m, q)
      {
        if Lookup(m, q).Some? {
          ToReaches(to, m, q);
          PathOfJoin(q);
          assert JoinPath(q) in f.Keys;
        }
      }
      CleanIsFull(m);
      KnownByBinaries(Map(e), m);
    }
  }

  lemma {:induction false} ToIsFlat(order: Order, m: Msg, keys: seq<Key>)
    requires IsOrder(order) && m.Map? && forall k <- keys :: k in m.entries
    ensures IsFlat(ToEntries(order, m, keys)) && TextKeys(ToEntries(order, m, keys))
    decreases m, |keys|
  {
    if keys != [] {
      var last := keys[|keys| - 1];
      ToIsFlat(order, m, keys[..|keys| - 1]);
      if m.entries[last].Map? {
        var below := m.entries[last];
        assert Lists(order(below.entries), below.entries);
        ToIsFlat(order, below, order(below.entries));
        var sub := To(order, below).entries;
        assert Lists(order(sub), sub);
        PutAllIsFlat(last, sub, order(sub), ToEntries(order, m, keys[..|keys| - 1]));
      }
    }
  }

  lemma {:induction false} PutAllIsFlat(k: Key, sub: Entries, keys: seq<Key>, acc: Entries)
    requires IsFlat(sub) && IsFlat(acc) && TextKeys(acc) && forall x <- keys :: x in sub
    ensures IsFlat(PutAll(k, sub, keys, acc)) && TextKeys(PutAll(k, sub, keys, acc))
    decreases |keys|
  {
    if keys != [] {
      PutAllIsFlat(k, sub, keys[..|keys| - 1], acc);
    }
  }

  /** With a name in front, a flattened key stands for a path of names. */
  lemma NamedInFront(p: seq<Key>)
    requires p != [] && IsName(Names(p)[0])
    ensures IsPath(Path(ToBinary(p)))
  {
    var names := NonEmpty(Names(p));
    var b := Join(names);
    assert names[0] == Names(p)[0] && b[0] == names[0][0];
    assert AreNames(Parts(b)) && Parts(b) != [];
    PathOfTexts(Parts(b));
  }

  lemma PathOfTexts(names: seq<Bytes>)
    requires AreNames(names) && names != []
    ensures IsPath(Path(Text(Join(names))))
  {
    TextsOfNames(names);
    PathOfJoin(Texts(names));
  }

  lemma TidyKey(k: Key)
    requires k == UNDEFINED || IsNamed(k)
    ensures IsName(Names([k])[0])
  {
    assert Ascii("undefined")[0] == 117;
    assert forall i | 0 <= i < 9 :: Ascii("undefined")[i] != SLASH;
  }

  lemma {:induction false} PutAllIsPlain(k: Key, sub: Entries, keys: seq<Key>, acc: Entries)
    requires PlainKeys(acc) && IsName(Names([k])[0]) && forall x <- keys :: x in sub
    ensures PlainKeys(PutAll(k, sub, keys, acc))
    decreases |keys|
  {
    if keys != [] {
      PutAllIsPlain(k, sub, keys[..|keys| - 1], acc);
      NamedInFront([k, keys[|keys| - 1]]);
    }
  }

  /** A tidy message is flattened to keys that stand for paths of names. */
  lemma {:induction false} ToIsPlain(order: Order, m: Msg, keys: seq<Key>)
    requires IsOrder(order) && m.Map? && Tidy(m) && forall k <- keys :: k in m.entries
    ensures PlainKeys(ToEntries(order, m, keys))
    decreases |keys|
  {
    if keys != [] {
      var last := keys[|keys| - 1];
      ToIsPlain(order, m, keys[..|keys| - 1]);
      TidyKey(last);
      if m.entries[last].Map? {
        var sub := To(order, m.entries[last]).entries;
        assert Lists(order(sub), sub);
        PutAllIsPlain(last, sub, order(sub), ToEntries(order, m, keys[..|keys| - 1]));
      } else {
        NamedInFront([last]);
      }
    }
  }

  /** Whatever survives both directions is clean. */
  lemma SurvivorIsClean(from: Order, to: Order, m: Msg)
    requires IsOrder(from) && IsOrder(to) && m.Map? && From(from, To(to, m)) == Some(m)
    ensures Clean(m)
  {
    assert Lists(to(m.entries), m.entries);
    ToIsFlat(to, m, to(m.entries));
    var f := To(to, m).entries;
    assert Lists(from(f), f);
    FromIsTidy(from, f, from(f));
    ToIsPlain(to, m, to(m.entries));
    FromIsClean(from, f, from(f));
  }

  /**
   * Flattening and reading back gives the same message, in whatever order the maps are visited, exactly
   * if every key is a name without slashes and no map inside the message is empty.
   */
  lemma NestedRoundTrip(from: Order, to: Order, m: Msg)
    requires IsOrder(from) && IsOrder(to)
    ensures From(from, To(to, m)) == Some(m) <==> Clean(m)
  {
    if Clean(m) {
      NestedBack(from, to, m);
    } else if From(from, To(to, m)) == Some(m) {
      SurvivorIsClean(from, to, m);
    }
  }

  lemma WrittenAgain(to: Order, f: Entries, e: Entries, k: Key)
    requires IsOrder(to) && IsFlat(f) && CanonicalKeys(f) && ReadAs(f, e) && Clean(Map(e)) && k in f
    ensures k in To(to, Map(e)).entries && To(to, Map(e)).entries[k] == f[k]
  {
    assert Lookup(Map(e), Path(k)) == Some(f[k].bytes) && Canonical(k);
    ToReaches(to, Map(e), Path(k));
    ToReflects(to, Map(e));
  }

  lemma NothingElse(to: Order, f: Entries, e: Entries, k: Key)
    requires IsOrder(to) && IsFlat(f) && CanonicalKeys(f) && ReadAs(f, e) && Clean(Map(e))
    requires k in To(to, Map(e)).entries
    ensures k in f
  {
    ToReflects(to, Map(e));
    assert Lookup(Map(e), Path(k)).Some?;
    var j :| j in f.Keys && Path(j) == Path(k);
    assert JoinPath(Path(j)) == j && JoinPath(Path(k)) == k;
  }

  lemma AllWritten(to: Order, f: Entries, e: Entries)
    requires IsOrder(to) && IsFlat(f) && CanonicalKeys(f) && ReadAs(f, e) && Clean(Map(e))
    ensures forall k | k in f :: k in To(to, Map(e)).entries && To(to, Map(e)).entries[k] == f[k]
  {
    forall k | k in f ensures k in To(to, Map(e)).entries && To(to, Map(e)).entries[k] == f[k] {
      WrittenAgain(to, f, e, k);
    }
  }

  lemma OnlyWritten(to: Order, f: Entries, e: Entries)
    requires IsOrder(to) && IsFlat(f) && CanonicalKeys(f) && ReadAs(f, e) && Clean(Map(e))
    ensures forall k | k in To(to, Map(e)).entries :: k in f
  {
    forall k | k in To(to, Map(e)).entries ensures k in f {
      NothingElse(to, f, e, k);
    }
  }

  lemma WrittenTheSame(to: Order, f: Entries, e: Entries)
    requires IsOrder(to) && IsFlat(f) && CanonicalKeys(f) && ReadAs(f, e) && Clean(Map(e))
    ensures To(to, Map(e)) == Map(f)
  {
    AllWritten(to, f, e);
    OnlyWritten(to, f, e);
    SameEntries(f, To(to, Map(e)).entries);
  }

  lemma SameEntries(f: Entries, g: Entries)
    requires (forall k | k in f :: k in g && g[k] == f[k]) && (forall k | k in g :: k in f)
    ensures f == g
  {
  }

  lemma PrefixFreeAgrees(f: Entries)
    requires PrefixFree(f)
    ensures Agreeing(f)
  {
  }

  lemma FlatBack(from: Order, to: Order, f: Entries)
    requires IsOrder(from) && IsOrder(to) && IsFlat(f) && PrefixFree(f) && CanonicalKeys(f)
    ensures From(from, Map(f)).Some? && To(to, From(from, Map(f)).value) == Map(f)
  {
    PrefixFreeAgrees(f);
    CanonicalIsPlain(f);
    var e := FromRead(from, f);
    WrittenTheSame(to, f, e);
  }

  lemma CanonicalIsPlain(f: Entries)
    requires CanonicalKeys(f)
    ensures PlainKeys(f)
  {
    assert forall k <- f.Keys :: Canonical(k);
  }

  /**
   * Reading a flat map and flattening again gives the same map exactly if its keys are paths of names
   * joined by single slashes and none leads through another one.
   */
  lemma FlatRoundTrip(from: Order, to: Order, f: Entries)
    requires IsOrder(from) && IsOrder(to) && IsFlat(f)
    ensures (var m := From(from, Map(f)); m.Some? && To(to, m.value) == Map(f)) <==>
            PrefixFree(f) && CanonicalKeys(f)
  {
    var m := From(from, Map(f));
    if PrefixFree(f) && CanonicalKeys(f) {
      FlatBack(from, to, f);
    } else if m.Some? && To(to, m.value) == Map(f) {
      SurvivorIsClean(from, to, m.value);
      ToReflects(to, m.value);
      ReflectionIsPrefixFree(f, m.value);
    }
  }

  //////////////////////////////////////////////////////////////////////////////
  // Orders
  //////////////////////////////////////////////////////////////////////////////

  /** An order that visits the keys of `f` like this. */
  lemma OrderWith(f: Entries, keys: seq<Key>) returns (order: Order)
    requires Lists(keys, f)
    ensures IsOrder(order) && order(f) == keys
  {
    order := e => if e == f then keys else SomeList(e);
  }

  lemma ListsAfter(f: Entries, k: Key, keys: seq<Key>)
    requires k in f && Lists(keys, f - {k})
    ensures Lists([k] + keys, f) && Lists(keys + [k], f)
  {
    assert forall x <- f.Keys :: x == k || x in (f - {k}).Keys;
    assert forall x <- keys :: x in (f - {k}).Keys;
  }

  /** There are only binaries at the paths of keys. */
  lemma {:induction false} ReadFrom(order: Order, f: Entries, keys: seq<Key>, q: seq<Key>)
    requires IsOrder(order) && IsFlat(f) && forall k <- keys :: k in f
    ensures
      var e := FromEntries(order, Map(f), keys);
      e.Some? && Lookup(Map(e.value), q).Some? ==> exists k <- keys :: Path(k) == q
    decreases |keys|
  {
    if keys != [] && FromEntries(order, Map(f), keys).Some? {
      var (front, last) := (keys[..|keys| - 1], keys[|keys| - 1]);
      assert keys == front + [last];
      FoldStep(order, f, front, last);
      ReadFrom(order, f, front, q);
      SetLookup(Path(last), f[last].bytes, FromEntries(order, Map(f), front).value, q);
      assert last in keys && forall k <- front :: k in keys;
    }
  }

  /** No key is visited before one whose path leads through it. */
  predicate Downwards(keys: seq<Key>) {
    forall i, j | 0 <= i < j < |keys| :: !(Path(keys[i]) < Path(keys[j]))
  }

  lemma {:induction false} DownwardsSucceeds(order: Order, f: Entries, keys: seq<Key>)
    requires IsOrder(order) && IsFlat(f) && HasPaths(f) && Downwards(keys) && forall k <- keys :: k in f
    ensures FromEntries(order, Map(f), keys).Some?
    decreases |keys|
  {
    if keys != [] {
      var (front, last) := (keys[..|keys| - 1], keys[|keys| - 1]);
      assert keys == front + [last];
      DownwardsSucceeds(order, f, front);
      FoldStep(order, f, front, last);
      var (e, path) := (FromEntries(order, Map(f), front).value, Path(last));
      forall n | 0 < n < |path|
        ensures Lookup(Map(e), path[..n]).None?
      {
        ReadFrom(order, f, front, path[..n]);
        assert path[..n] < path;
      }
      SetSucceeds(path, f[last].bytes, e);
    }
  }

  /** A binary on the way to a path. */
  ghost predicate Blocks(e: Entries, path: seq<Key>) {
    exists n :: 0 < n <= |path| && Lookup(Map(e), path[..n]).Some?
  }

  lemma NoneAbove(path: seq<Key>, b: Bytes, e: Entries, q: seq<Key>)
    requires DeepSet(path, Binary(b), e).Some? && q != [] && Lookup(Map(e), q).Some?
    ensures !(q < path)
  {
    if q < path {
      assert path[..|q|] == q;
      SetSucceeds(path, b, e);
    }
  }

  lemma SetBlocks(path: seq<Key>, b: Bytes, e: Entries, blocked: seq<Key>)
    requires Blocks(e, blocked) && DeepSet(path, Binary(b), e).Some? && path != []
    ensures !(blocked < path) && Blocks(DeepSet(path, Binary(b), e).value, blocked)
  {
    var r := DeepSet(path, Binary(b), e).value;
    var n :| 0 < n <= |blocked| && Lookup(Map(e), blocked[..n]).Some?;
    var q := blocked[..n];
    NoneAbove(path, b, e, q);
    SetLookup(path, b, e, q);
    if path <= q {
      assert blocked[..|path|] == path;
      SetLookup(path, b, e, path);
      assert Lookup(Map(r), blocked[..|path|]).Some?;
    }
  }

  /** The path of `j` is blocked, and no path of a key leads through it. */
  ghost predicate Blocked(e: Option<Entries>, j: Key, keys: seq<Key>) {
    e.Some? ==> Blocks(e.value, Path(j)) && forall k <- keys :: !(Path(j) < Path(k))
  }

  lemma BlockedNext(order: Order, f: Entries, j: Key, keys: seq<Key>, last: Key)
    requires IsOrder(order) && IsFlat(f) && HasPaths(f) && j in f && last in f && forall k <- keys :: k in f
    requires Blocked(FromEntries(order, Map(f), [j] + keys), j, keys)
    ensures Blocked(FromEntries(order, Map(f), [j] + keys + [last]), j, keys + [last])
  {
    FoldStep(order, f, [j] + keys, last);
    if FromEntries(order, Map(f), [j] + keys + [last]).Some? {
      SetBlocks(Path(last), f[last].bytes, FromEntries(order, Map(f), [j] + keys).value, Path(j));
    }
  }

  /** From a key on, its path stays blocked, so that a path through it cannot be set any more. */
  lemma {:induction false} FirstBlocks(order: Order, f: Entries, j: Key, keys: seq<Key>)
    requires IsOrder(order) && IsFlat(f) && HasPaths(f) && j in f && forall k <- keys :: k in f
    ensures Blocked(FromEntries(order, Map(f), [j] + keys), j, keys)
    decreases |keys|
  {
    if keys == [] {
      FirstSet(order, f, j);
    } else {
      var (front, last) := (keys[..|keys| - 1], keys[|keys| - 1]);
      assert front + [last] == keys && [j] + keys == ([j] + front) + [last];
      FirstBlocks(order, f, j, front);
      BlockedNext(order, f, j, front, last);
    }
  }

  lemma FirstSet(order: Order, f: Entries, j: Key)
    requires IsOrder(order) && IsFlat(f) && HasPaths(f) && j in f
    ensures var e := FromEntries(order, Map(f), [j] + []); e.Some? ==> Blocks(e.value, Path(j))
  {
    var none: seq<Key> := [];
    FoldStep(order, f, none, j);
    assert none + [j] == [j] + [];
    assert FromEntries(order, Map(f), none) == Some(map[]);
    var path := Path(j);
    if DeepSet(path, Binary(f[j].bytes), map[]).Some? {
      SetLookup(path, f[j].bytes, map[], path);
      assert path[..|path|] == path;
    }
  }

  lemma DownwardsAfter(k: Key, rest: seq<Key>)
    requires Downwards(rest) && forall x <- rest :: |Path(k)| <= |Path(x)|
    ensures Downwards(rest + [k])
  {
    var keys := rest + [k];
    forall i, j | 0 <= i < j < |keys|
      ensures !(Path(keys[i]) < Path(keys[j]))
    {
      if j == |rest| {
        assert keys[i] in rest;
      }
    }
  }

  /** The keys with the longest paths first. */
  lemma {:induction false} LongestFirst(f: Entries) returns (keys: seq<Key>)
    ensures Lists(keys, f) && Downwards(keys)
    decreases |f|
  {
    if f == map[] {
      keys := [];
    } else {
      var k := Shortest(f, f.Keys);
      var rest := LongestFirst(f - {k});
      keys := rest + [k];
      ListsAfter(f, k, rest);
      assert forall x <- rest :: x in f.Keys;
      DownwardsAfter(k, rest);
    }
  }

  lemma {:induction false} Shortest(f: Entries, keys: set<Key>) returns (k: Key)
    requires keys != {} && keys <= f.Keys
    ensures k in keys && forall x <- keys :: |Path(k)| <= |Path(x)|
    decreases keys
  {
    var first :| first in keys;
    k := first;
    if keys - {first} != {} {
      var j := Shortest(f, keys - {first});
      if |Path(j)| < |Path(first)| {
        k := j;
      }
    }
    assert forall x <- keys :: x == first || x in keys - {first};
  }

  /** A key in front of one whose path leads through it makes reading fail. */
  lemma FirstFails(order: Order, f: Entries, j: Key, k: Key, keys: seq<Key>)
    requires IsOrder(order) && IsFlat(f) && HasPaths(f) && j in f && k in keys && Path(j) < Path(k)
    requires order(f) == [j] + keys && Lists([j] + keys, f)
    ensures From(order, Map(f)).None?
  {
    FirstBlocks(order, f, j, keys);
  }

  /** If reading succeeds, the value of the last key is at its path. */
  lemma LastIsRead(order: Order, f: Entries, keys: seq<Key>, k: Key)
    requires IsOrder(order) && IsFlat(f) && k in f && order(f) == keys + [k] && Lists(keys + [k], f)
    ensures var m := From(order, Map(f)); m.Some? ==> Lookup(m.value, Path(k)) == Some(f[k].bytes)
  {
    assert forall x <- keys :: x in keys + [k];
    FoldStep(order, f, keys, k);
    if From(order, Map(f)).Some? {
      SetLookup(Path(k), f[k].bytes, FromEntries(order, Map(f), keys).value, Path(k));
    }
  }

  lemma ThroughDiffers(f: Entries, j: Key, k: Key) returns (order: Order, other: Order)
    requires IsFlat(f) && HasPaths(f) && j in f && k in f && Path(j) < Path(k)
    ensures IsOrder(order) && IsOrder(other) && From(order, Map(f)).None? && From(other, Map(f)).Some?
  {
    var rest := SomeList(f - {j});
    ListsAfter(f, j, rest);
    order := OrderWith(f, [j] + rest);
    assert k in (f - {j}).Keys;
    FirstFails(order, f, j, k, rest);
    var keys := LongestFirst(f);
    other := OrderWith(f, keys);
    DownwardsSucceeds(other, f, keys);
  }

  /** No path of a key leads through another one. */
  predicate Apart(f: Entries) {
    forall x <- f.Keys, y <- f.Keys :: !(Path(x) < Path(y))
  }

  lemma LastReads(order: Order, f: Entries, front: seq<Key>, k: Key)
    requires IsOrder(order) && IsFlat(f) && HasPaths(f) && Apart(f) && k in f
    requires order(f) == front + [k] && Lists(front + [k], f)
    ensures From(order, Map(f)).Some? && Lookup(From(order, Map(f)).value, Path(k)) == Some(f[k].bytes)
  {
    ApartIsDownwards(f, front + [k]);
    DownwardsSucceeds(order, f, front + [k]);
    LastIsRead(order, f, front, k);
  }

  /** Some order has this key last, and its value is what is read at its path. */
  lemma LastWins(f: Entries, k: Key) returns (order: Order)
    requires IsFlat(f) && HasPaths(f) && Apart(f) && k in f
    ensures IsOrder(order) && From(order, Map(f)).Some?
    ensures Lookup(From(order, Map(f)).value, Path(k)) == Some(f[k].bytes)
  {
    var front := SomeList(f - {k});
    ListsAfter(f, k, front);
    order := OrderWith(f, front + [k]);
    LastReads(order, f, front, k);
  }

  lemma ApartIsDownwards(f: Entries, keys: seq<Key>)
    requires Apart(f) && Lists(keys, f)
    ensures Downwards(keys) && forall k <- keys :: k in f
  {
    forall i, j | 0 <= i < j < |keys| ensures !(Path(keys[i]) < Path(keys[j])) {
      assert keys[i] in f.Keys && keys[j] in f.Keys;
    }
  }

  lemma SamePathDiffers(f: Entries, j: Key, k: Key) returns (order: Order, other: Order)
    requires IsFlat(f) && HasPaths(f) && j in f && k in f && Path(j) == Path(k) && f[j] != f[k]
    requires Apart(f)
    ensures IsOrder(order) && IsOrder(other) && From(order, Map(f)) != From(other, Map(f))
  {
    order := LastWins(f, j);
    other := LastWins(f, k);
    assert f[j].Binary? && f[k].Binary?;
  }

  /** If keys on one path do not agree, and none is a single slash, two orders give different results. */
  lemma OrdersDiffer(f: Entries) returns (order: Order, other: Order)
    requires IsFlat(f) && HasPaths(f) && !Consistent(f)
    ensures IsOrder(order) && IsOrder(other) && From(order, Map(f)) != From(other, Map(f))
  {
    if j, k :| j in f && k in f && Path(j) < Path(k) {
      order, other := ThroughDiffers(f, j, k);
    } else {
      var j, k :| j in f && k in f && Path(j) <= Path(k) && !(Path(j) == Path(k) && f[j] == f[k]);
      order, other := SamePathDiffers(f, j, k);
    }
  }

  /** The key of a single slash makes reading fail in every order. */
  lemma {:induction false} SlashFails(order: Order, f: Entries, keys: seq<Key>)
    requires IsOrder(order) && IsFlat(f) && (forall x <- keys :: x in f) && Text([SLASH]) in keys
    ensures FromEntries(order, Map(f), keys).None?
    decreases |keys|
  {
    var (front, last) := (keys[..|keys| - 1], keys[|keys| - 1]);
    assert keys == front + [last];
    FoldStep(order, f, front, last);
    if last != Text([SLASH]) {
      SlashFails(order, f, front);
    }
  }

  ghost predicate SameInEveryOrder(f: Entries) {
    forall order: Order, other: Order {:trigger From(order, Map(f)), From(other, Map(f))} |
      IsOrder(order) && IsOrder(other) :: From(order, Map(f)) == From(other, Map(f))
  }

  /** Reading a flat map gives the same result in every order exactly if a key is a single slash, and it
      fails, or if of two keys of which one leads to or through the other both have the same path and
      value. Keys without a part, such as the empty one, have one path, that of the atom `undefined`. */
  lemma OrderMattersExactly(f: Entries)
    requires IsFlat(f)
    ensures SameInEveryOrder(f) <==> Text([SLASH]) in f || Consistent(f)
  {
    if !HasPaths(f) {
      forall order: Order | IsOrder(order) ensures From(order, Map(f)).None? {
        assert Lists(order(f), f) && Text([SLASH]) in f.Keys;
        SlashFails(order, f, order(f));
      }
    } else if Consistent(f) {
      forall order: Order, other: Order | IsOrder(order) && IsOrder(other)
        ensures From(order, Map(f)) == From(other, Map(f))
      {
        FromAnyOrder(order, other, f);
      }
    } else {
      var order, other := OrdersDiffer(f);
    }
  }

  /** A value under the empty key is filed under the atom `undefined`. */
  lemma EmptyKeyIsFiled(order: Order, b: Bytes)
    requires IsOrder(order)
    ensures From(order, Map(map[Text([]) := Binary(b)])) == Some(Map(map[Atom(Ascii("undefined")) := Binary(b)]))
  {
    var (f, k) := (map[Text([]) := Binary(b)], Text([]));
    OnlyKey(f, k, order(f));
    FoldStep(order, f, [], k);
    assert [] + [k] == [k] && FromEntries(order, Map(f), []) == Some(map[]);
    assert Path(k) == [UNDEFINED];
  }

  lemma OnlyKey(f: Entries, k: Key, keys: seq<Key>)
    requires f.Keys == {k} && Lists(keys, f)
    ensures keys == [k]
  {
    assert k in f.Keys;
    if |keys| > 1 {
      TwoKeys(f, keys);
    }
  }

  lemma TwoKeys(f: Entries, keys: seq<Key>)
    requires Lists(keys, f) && |keys| > 1
    ensures exists j, k :: j in f.Keys && k in f.Keys && j != k
  {
    assert keys[0] in f.Keys && keys[1] in f.Keys && keys[0] != keys[1];
  }

  const ONE: Key := Text(Ascii("a"))

  const TWO: Key := Text(Ascii("b"))

  const BELOW: Key := Text(Ascii("a/b"))

  lemma {:induction false} ExampleParts()
    ensures ONE != BELOW && Path(ONE) == [ONE] && Path(BELOW) == [ONE, TWO]
  {
    assert Ascii("a") == [97] && Ascii("b") == [98] && Ascii("a/b") == [97, SLASH, 98];
    assert IsPath([ONE]) && IsPath([ONE, TWO]);
    assert Names([ONE]) == [Ascii("a")] && Names([ONE, TWO]) == [Ascii("a"), Ascii("b")];
    assert [Ascii("a"), Ascii("b")][1..] == [Ascii("b")];
    assert JoinPath([ONE]) == ONE && JoinPath([ONE, TWO]) == BELOW;
    PathOfJoin([ONE]);
    PathOfJoin([ONE, TWO]);
  }

  lemma {:induction false} SetBothWays(a: Key, b: Key, x: Bytes, y: Bytes)
    ensures DeepSet([a], Binary(x), map[]) == Some(map[a := Binary(x)])
    ensures DeepSet([a, b], Binary(y), map[a := Binary(x)]) == None
    ensures DeepSet([a, b], Binary(y), map[]) == Some(map[a := Map(map[b := Binary(y)])])
    ensures DeepSet([a], Binary(x), map[a := Map(map[b := Binary(y)])]) == Some(map[a := Binary(x)])
  {
    assert [a, b][1..] == [b];
    assert DeepSet([b], Binary(y), map[]) == Some(map[b := Binary(y)]);
    assert map[a := Map(map[b := Binary(y)])][a := Binary(x)] == map[a := Binary(x)];
  }

  /** The fold over two keys. */
  lemma {:induction false} FoldTwo(order: Order, f: Entries, j: Key, k: Key)
    requires IsOrder(order) && IsFlat(f) && j in f && k in f
    ensures var first := DeepSet(Path(j), f[j], map[]);
            FromEntries(order, Map(f), [j, k]) ==
            if first.None? then None else DeepSet(Path(k), f[k], first.value)
  {
    assert [j, k][..1] == [j] && [j][..0] == [];
    assert f[j].Binary? && f[k].Binary?;
    assert From(order, f[j]) == Some(f[j]) && From(order, f[k]) == Some(f[k]);
    assert FromEntries(order, Map(f), []) == Some(map[]);
    assert FromEntries(order, Map(f), [j]) == DeepSet(Path(j), f[j], map[]);
  }

  /** Of two keys, `a` and a path through it, one order makes reading fail and the other loses an entry. */
  lemma OrderMatters() returns (f: Entries, order: Order, other: Order)
    ensures f == map[ONE := Binary([1]), BELOW := Binary([2])] && IsOrder(order) && IsOrder(other)
    ensures From(order, Map(f)).None? && From(other, Map(f)) == Some(Map(map[ONE := Binary([1])]))
  {
    f := map[ONE := Binary([1]), BELOW := Binary([2])];
    ExampleParts();
    order := OrderWith(f, [ONE, BELOW]);
    other := OrderWith(f, [BELOW, ONE]);
    FoldTwo(order, f, ONE, BELOW);
    FoldTwo(other, f, BELOW, ONE);
    SetBothWays(ONE, TWO, [1], [2]);
  }
}
