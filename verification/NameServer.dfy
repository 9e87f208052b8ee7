/** The name server (src/nameserver.c): a table of 64 bucket lists over 256 linked entries, which answers as a plain
    map from names to task identifiers would.  A name is the characters before the terminator. */
module NameServer {
  import opened Chains
  import opened Facts

  const TABLE_SIZE := 64
  const MAX_ENTRIES := 256
  const MAX_NAME_LENGTH := 256
  const WORD := 0x1_0000_0000_0000_0000

  type Name = seq<int>

  /** What fits the name fields with its terminator. */
  ghost predicate Fits(name: Name) {
    |name| < MAX_NAME_LENGTH && forall i :: 0 <= i < |name| ==> 0 < name[i] < 256
  }

  /** The character at a place of the string, its terminator included. */
  function CharAt(name: Name, i: nat): int
    requires i <= |name|
  {
    if i < |name| then name[i] else 0
  }

  // ----- hashing and comparing -----

  ghost function HashOf(name: Name, n: nat): (h: nat)
    requires n <= |name| && Fits(name)
    ensures h < WORD
  {
    if n == 0 then 5381 else (HashOf(name, n - 1) * 32 + HashOf(name, n - 1) + name[n - 1]) % WORD
  }

  /** The hash as a number of any size: times 33 and the next character, from 5381 on. */
  ghost function Djb2(name: Name, n: nat): nat
    requires n <= |name| && Fits(name)
  {
    if n == 0 then 5381 else 33 * Djb2(name, n - 1) + name[n - 1]
  }

  /** What is lost above 64 bits on the way does not matter: the bucket is that of the whole number, modulo 64. */
  lemma {:induction false} HashWraps(name: Name, n: nat)
    requires n <= |name| && Fits(name)
    ensures HashOf(name, n) == Djb2(name, n) % 0x1_0000_0000_0000_0000
    ensures Bucket(name) == HashOf(name, |name|) % 64
  {
    if n > 0 {
      HashWraps(name, n - 1);
      var d, h, c := Djb2(name, n - 1), HashOf(name, n - 1), name[n - 1];
      var q := d / WORD;
      assert d == q * WORD + h;
      assert 33 * d + c == (h * 32 + h + c) + (33 * q) * WORD;
      ModDrop(h * 32 + h + c, 33 * q, WORD);
    }
  }

  ghost function Bucket(name: Name): (h: nat)
    ensures h < TABLE_SIZE
  {
    if Fits(name) then HashOf(name, |name|) % TABLE_SIZE else 0
  }

  /** hash: the shift by 5 and the sum in 64 bits. */
  method Hash(str: Name) returns (h: nat)
    requires Fits(str)
    ensures h == Bucket(str)
  {
    var hash, i := 5381, 0;
    while CharAt(str, i) != 0
      invariant 0 <= i <= |str| && hash == HashOf(str, i)
      decreases |str| - i
    {
      hash := ((hash * 32) % WORD + hash + CharAt(str, i)) % WORD;
      ShiftWraps(HashOf(str, i), CharAt(str, i));
      i := i + 1;
    }
    return hash % TABLE_SIZE;
  }

  lemma ShiftWraps(h: nat, c: nat)
    ensures ((h * 32) % WORD + h + c) % WORD == (h * 32 + h + c) % WORD
  {
    var q := h * 32 / WORD;
    assert h * 32 == q * WORD + (h * 32) % WORD;
    ModDrop((h * 32) % WORD + h + c, q, WORD);
  }

  /** strncmp over the whole name fields: 0 exactly for equal names. */
  method Compare(a: Name, b: Name) returns (d: int)
    requires Fits(a) && Fits(b)
    ensures d == 0 <==> a == b
  {
    var i, n := 0, MAX_NAME_LENGTH;
    while n != 0 && CharAt(a, i) != 0 && CharAt(a, i) == CharAt(b, i)
      invariant 0 <= i <= |a| && i <= |b| && n == MAX_NAME_LENGTH - i && a[..i] == b[..i]
      decreases n
    {
      i, n := i + 1, n - 1;
    }
    if n == 0 { return 0; }
    assert a == b ==> CharAt(a, i) == CharAt(b, i);
    assert i == |a| == |b| ==> a[..i] == a && b[..i] == b;
    return CharAt(a, i) - CharAt(b, i);
  }

  // ----- the registrations as a map -----

  ghost function RegistryOf(names: seq<Name>, tid: seq<int>): map<Name, int>
    requires |tid| == |names|
  {
    if names == [] then map[]
    else RegistryOf(names[..|names| - 1], tid[..|names| - 1])[names[|names| - 1] := tid[|names| - 1]]
  }

  ghost predicate Distinct(names: seq<Name>) {
    forall i, j :: 0 <= i < j < |names| ==> names[i] != names[j]
  }

  lemma {:induction false} RegistryAt(names: seq<Name>, tid: seq<int>, i: nat)
    requires |tid| == |names| && Distinct(names) && i < |names|
    ensures names[i] in RegistryOf(names, tid) && RegistryOf(names, tid)[names[i]] == tid[i]
  {
    var k := |names| - 1;
    if i < k { RegistryAt(names[..k], tid[..k], i); }
  }

  lemma {:induction false} RegistryHas(names: seq<Name>, tid: seq<int>, n: Name)
    requires |tid| == |names|
    ensures n in RegistryOf(names, tid) <==> n in names
  {
    if names != [] {
      var k := |names| - 1;
      RegistryHas(names[..k], tid[..k], n);
      assert names == names[..k] + [names[k]];
    }
  }

  lemma {:induction false} RegistrySize(names: seq<Name>, tid: seq<int>)
    requires |tid| == |names| && Distinct(names)
    ensures |RegistryOf(names, tid)| == |names|
  {
    if names != [] {
      var k := |names| - 1;
      RegistrySize(names[..k], tid[..k]);
      RegistryHas(names[..k], tid[..k], names[k]);
      var r := RegistryOf(names[..k], tid[..k]);
      assert r[names[k] := tid[k]].Keys == r.Keys + {names[k]};
    }
  }

  lemma RegistryIs(names: seq<Name>, tid: seq<int>)
    requires |tid| == |names| && Distinct(names)
    ensures forall i :: 0 <= i < |names| ==>
      names[i] in RegistryOf(names, tid) && RegistryOf(names, tid)[names[i]] == tid[i]
    ensures forall n :: n in RegistryOf(names, tid) ==> n in names
    ensures |RegistryOf(names, tid)| == |names|
  {
    hide RegistryOf, Distinct;
    forall i | 0 <= i < |names|
      ensures names[i] in RegistryOf(names, tid) && RegistryOf(names, tid)[names[i]] == tid[i]
    {
      RegistryAt(names, tid, i);
    }
    RegistrySize(names, tid);
    forall n | n in RegistryOf(names, tid) ensures n in names { RegistryHas(names, tid, n); }
  }

  lemma RegistryAdds(names: seq<Name>, tid: seq<int>, n: Name, v: int)
    requires |tid| == |names|
    ensures RegistryOf(names + [n], tid + [v]) == RegistryOf(names, tid)[n := v]
  {
    assert (names + [n])[..|names|] == names && (tid + [v])[..|names|] == tid;
  }

  lemma RegistryOverwrites(names: seq<Name>, tid: seq<int>, k: nat, v: int)
    requires |tid| == |names| && Distinct(names) && k < |names|
    ensures RegistryOf(names, tid[k := v]) == RegistryOf(names, tid)[names[k] := v]
  {
    RegistryIs(names, tid);
    RegistryIs(names, tid[k := v]);
    var m, m' := RegistryOf(names, tid), RegistryOf(names, tid[k := v]);
    forall n | n in m || n in m' ensures n in m && n in m' && m'[n] == m[names[k] := v][n] {
      var i :| 0 <= i < |names| && names[i] == n;
    }
  }

  // ----- the server -----

  datatype Message = Register(name: Name, tid: int) | WhoIs(name: Name) | Unknown(name: Name, tid: int)

  datatype Reply = Ok(name: Name, tid: int) | Error(name: Name, tid: int)

  ghost predicate AllHashTo(names: seq<Name>, q: seq<nat>, h: nat) {
    forall x :: x in q ==> x < |names| && Bucket(names[x]) == h
  }

  /** The bucket lists: each entry in use is in the list of its name's bucket, and only there. */
  ghost predicate Bucketed(next: seq<int>, table: seq<int>, names: seq<Name>, buckets: seq<seq<nat>>) {
    |table| == TABLE_SIZE && |buckets| == TABLE_SIZE && |next| == MAX_ENTRIES && |names| <= MAX_ENTRIES &&
    (forall h: nat :: h < TABLE_SIZE ==> Chain(next, table[h], buckets[h])) &&
    (forall h: nat :: h < TABLE_SIZE ==> AllHashTo(names, buckets[h], h)) &&
    (forall x: nat :: x < |names| ==> x in buckets[Bucket(names[x])])
  }

  lemma BucketFacts(next: seq<int>, table: seq<int>, names: seq<Name>, buckets: seq<seq<nat>>, h: nat)
    requires Bucketed(next, table, names, buckets) && h < TABLE_SIZE
    ensures Chain(next, table[h], buckets[h]) && table[h] == HeadOf(buckets[h])
    ensures forall x :: x in buckets[h] ==> x < |names| <= |next|
    ensures forall x: nat :: x < |names| && Bucket(names[x]) == h ==> x in buckets[h]
  {
    hide Chain, Bucket;
    assert AllHashTo(names, buckets[h], h);
    ChainMembers(next, table[h], buckets[h]);
  }

  /** A new entry at the end of its bucket. */
  lemma BucketGrows(next: seq<int>, table: seq<int>, names: seq<Name>, buckets: seq<seq<nat>>, name: Name)
    requires Bucketed(next, table, names, buckets) && |names| < MAX_ENTRIES
    ensures var x, h := |names|, Bucket(name);
      var q := buckets[h];
      (q == [] ==> Bucketed(next[x := NULL], table[h := x], names + [name], buckets[h := q + [x]])) &&
      (q != [] ==>
        LastOf(q) < MAX_ENTRIES &&
          Bucketed(next[x := NULL][LastOf(q) := x], table, names + [name], buckets[h := q + [x]]))
  {
    hide Chain, Bucket;
    var x, h := |names|, Bucket(name);
    var q := buckets[h];
    assert q != [] ==> LastOf(q) in q;
    forall r: nat | r < TABLE_SIZE ensures x !in buckets[r] { assert AllHashTo(names, buckets[r], r); }
    assert AllHashTo(names, q, h);
    ChainAppend(next, table[h], q, x);
    forall r: nat | r < TABLE_SIZE && r != h
      ensures Chain(next[x := NULL], table[r], buckets[r])
      ensures q != [] ==> Chain(next[x := NULL][LastOf(q) := x], table[r], buckets[r])
    {
      ChainOther(next, table[r], buckets[r], x, NULL);
      if q != [] {
        assert AllHashTo(names, buckets[r], r);
        ChainOther(next[x := NULL], table[r], buckets[r], LastOf(q), x);
      }
    }
    var names', buckets' := names + [name], buckets[h := q + [x]];
    forall r: nat | r < TABLE_SIZE ensures AllHashTo(names', buckets'[r], r) { assert AllHashTo(names, buckets[r], r); }
    forall y: nat | y < |names'| ensures y in buckets'[Bucket(names'[y])] { }
  }

  class Server {
    var table: seq<int>
    var names: seq<Name>
    var tid: seq<int>
    var next: seq<int>
    ghost var buckets: seq<seq<nat>>

    /** Each name is stored once, in its own bucket, and every bucket list ends. */
    ghost predicate Valid()
      reads this
    {
      Bucketed(next, table, names, buckets) && |tid| == |names| && Distinct(names) &&
      forall i :: 0 <= i < |names| ==> Fits(names[i])
    }

    ghost function Registry(): map<Name, int>
      requires Valid()
      reads this
    {
      RegistryOf(names, tid)
    }

    /** nameserver_init. */
    constructor ()
      ensures Valid() && Registry() == map[]
    {
      table, next := seq(TABLE_SIZE, i => NULL), seq(MAX_ENTRIES, i => NULL);
      names, tid := [], [];
      buckets := seq(TABLE_SIZE, i => []);
    }

    /** The walk along the bucket of a name: the entry that holds it, or NULL and the last entry. */
    method Find(name: Name, h: nat) returns (curr: int, last: int)
      requires Valid() && Fits(name) && h == Bucket(name)
      ensures curr != NULL ==> 0 <= curr < |names| && names[curr] == name
      ensures curr == NULL ==> name !in names && last == LastOf(buckets[h])
    {
      hide Chain, Bucket, Bucketed, Fits;
      BucketSizes(next, table, names, buckets);
      BucketFacts(next, table, names, buckets, h);
      ghost var q, k: nat := buckets[h], 0;
      assert forall j :: 0 <= j < |q| ==> q[j] in q;
      assert q[0..] == q;
      curr, last := table[h], NULL;
      while curr != NULL
        invariant k <= |q| && curr == HeadOf(q[k..]) && last == if k == 0 then NULL else q[k - 1]
        invariant forall j :: 0 <= j < k ==> names[q[j]] != name
        decreases |q| - k
      {
        ChainStep(next, table[h], q, k);
        var d := Compare(name, names[curr]);
        if d == 0 { return; }
        last := curr;
        curr := next[curr];
        k := k + 1;
      }
      forall x: nat | x < |names| ensures names[x] != name {
        if Bucket(names[x]) == h {
          var j :| 0 <= j < |q| && q[j] == x;
        }
      }
    }

    /** nameserver_add_entry; its assertion demands room for a new name. */
    method AddEntry(name: Name, v: int)
      requires Valid() && Fits(name) && (name in Registry() || |names| < MAX_ENTRIES)
      modifies this
      ensures Valid() && Registry() == old(Registry())[name := v]
    {
      hide Chain, Bucket, Bucketed, Fits, RegistryOf;
      var h := Hash(name);
      var curr, last := Find(name, h);
      RegistryIs(names, tid);
      if curr != NULL {
        RegistryOverwrites(names, tid, curr, v);
        tid := tid[curr := v];
        return;
      }
      BucketFacts(next, table, names, buckets, h);
      BucketGrows(next, table, names, buckets, name);
      RegistryAdds(names, tid, name, v);
      BucketSizes(next, table, names, buckets);
      var id := |names|;
      assert id != MAX_ENTRIES;
      next := next[id := NULL];
      if last == NULL {
        table := table[h := id];
      } else {
        next := next[last := id];
      }
      buckets := buckets[h := buckets[h] + [id]];
      names, tid := names + [name], tid + [v];
    }

    /** nameserver_get_entry. */
    method GetEntry(name: Name) returns (r: int)
      requires Valid() && Fits(name)
      ensures r == if name in Registry() then Registry()[name] else -1
    {
      hide Chain, Bucket, Bucketed, Fits, RegistryOf;
      var h := Hash(name);
      var curr, last := Find(name, h);
      RegistryIs(names, tid);
      return if curr != NULL then tid[curr] else -1;
    }

    /** One message. */
    method Serve(m: Message) returns (r: Reply)
      requires Valid() && Fits(m.name) && (m.Register? ==> m.name in Registry() || |names| < MAX_ENTRIES)
      modifies this
      ensures Valid() && Registry() == Registered(old(Registry()), m) && r == ReplyTo(old(Registry()), m)
    {
      match m
      case Register(name, v) =>
        AddEntry(name, v);
        r := Ok(name, v);
      case WhoIs(name) =>
        var v := GetEntry(name);
        r := if v == -1 then Error(name, v) else Ok(name, v);
      case Unknown(name, v) =>
        r := Error(name, v);
    }

    /** Any sequence of messages that registers at most 256 names is answered as the plain map would answer it. */
    method Run(ms: seq<Message>) returns (rs: seq<Reply>)
      requires Valid() && Registry() == map[] && |NamesIn(ms)| <= MAX_ENTRIES && forall i :: 0 <= i < |ms| ==>
        Fits(ms[i].name)
      modifies this
      ensures Valid() && rs == RepliesTo(ms) && Registry() == After(ms)
    {
      hide Server.Valid, RegistryOf;
      rs := [];
      assert ms[..0] == [];
      for i := 0 to |ms|
        invariant Valid() && rs == RepliesTo(ms[..i]) && Registry() == After(ms[..i])
      {
        assert ms[..i + 1][..i] == ms[..i];
        RoomLeft(i, ms);
        var r := Serve(ms[i]);
        rs := rs + [r];
      }
      assert ms[..|ms|] == ms;
    }

    lemma RoomLeft(i: nat, ms: seq<Message>)
      requires Valid() && i < |ms| && Registry() == After(ms[..i]) && |NamesIn(ms)| <= MAX_ENTRIES
      ensures ms[i].Register? ==> ms[i].name in Registry() || |names| < MAX_ENTRIES
    {
      hide Bucketed, Chain, RegistryOf, Distinct, Fits, After, NamesIn;
      RegistryIs(names, tid);
      NamesGrow(ms, i);
      if ms[i].Register? {
        assert ms[..i + 1][..i] == ms[..i];
        NamesGrow(ms, i + 1);
        NamesHas(ms[..i + 1]);
        Fewer(After(ms[..i]).Keys, ms[i].name, NamesIn(ms));
      }
    }
  }

  lemma BucketSizes(next: seq<int>, table: seq<int>, names: seq<Name>, buckets: seq<seq<nat>>)
    requires Bucketed(next, table, names, buckets)
    ensures |table| == TABLE_SIZE && |buckets| == TABLE_SIZE && |next| == MAX_ENTRIES && |names| <= MAX_ENTRIES
  {
  }

  // ----- the plain map -----

  function Registered(reg: map<Name, int>, m: Message): map<Name, int> {
    if m.Register? then reg[m.name := m.tid] else reg
  }

  function ReplyTo(reg: map<Name, int>, m: Message): Reply {
    match m
    case Register(name, v) => Ok(name, v)
    case WhoIs(name) => if name in reg && reg[name] != -1 then Ok(name, reg[name]) else Error(name, -1)
    case Unknown(name, v) => Error(name, v)
  }

  ghost function After(ms: seq<Message>): map<Name, int> {
    if ms == [] then map[] else Registered(After(ms[..|ms| - 1]), ms[|ms| - 1])
  }

  ghost function RepliesTo(ms: seq<Message>): seq<Reply> {
    if ms == [] then [] else RepliesTo(ms[..|ms| - 1]) + [ReplyTo(After(ms[..|ms| - 1]), ms[|ms| - 1])]
  }

  ghost function NamesIn(ms: seq<Message>): set<Name> {
    if ms == [] then {} else NamesIn(ms[..|ms| - 1]) + if ms[|ms| - 1].Register? then {ms[|ms| - 1].name} else {}
  }

  lemma {:induction false} NamesGrow(ms: seq<Message>, i: nat)
    requires i <= |ms|
    ensures After(ms[..i]).Keys <= NamesIn(ms[..i]) <= NamesIn(ms)
    decreases |ms| + i
  {
    if i < |ms| {
      NamesGrow(ms[..|ms| - 1], i);
      assert ms[..|ms| - 1][..i] == ms[..i];
    } else if i > 0 {
      NamesGrow(ms[..|ms| - 1], i - 1);
      assert ms[..|ms| - 1][..i - 1] == ms[..|ms| - 1] && ms[..i] == ms;
    }
  }

  lemma NamesHas(ms: seq<Message>)
    requires ms != [] && ms[|ms| - 1].Register?
    ensures ms[|ms| - 1].name in NamesIn(ms)
  {
  }

  lemma Fewer(a: set<Name>, n: Name, b: set<Name>)
    requires a <= b && n in b
    ensures n in a || |a| < |b|
  {
    if n !in a { assert b == (a + {n}) + (b - (a + {n})); }
  }

  /** The map holds, for every name, the identifier registered last. */
  lemma {:induction false} LatestWins(ms: seq<Message>, i: nat)
    requires i < |ms| && ms[i].Register? && forall j :: i < j < |ms| && ms[j].Register? ==> ms[j].name != ms[i].name
    ensures ms[i].name in After(ms) && After(ms)[ms[i].name] == ms[i].tid
  {
    if i < |ms| - 1 { LatestWins(ms[..|ms| - 1], i); }
  }

  /** A name never registered is not in it. */
  lemma {:induction false} UnregisteredIsUnknown(ms: seq<Message>, name: Name)
    requires forall j :: 0 <= j < |ms| && ms[j].Register? ==> ms[j].name != name
    ensures name !in After(ms)
  {
    if ms != [] { UnregisteredIsUnknown(ms[..|ms| - 1], name); }
  }

  lemma {:induction false} RepliesAt(ms: seq<Message>, i: nat)
    requires i < |ms|
    ensures |RepliesTo(ms)| == |ms| && RepliesTo(ms)[i] == ReplyTo(After(ms[..i]), ms[i])
  {
    if i < |ms| - 1 {
      RepliesAt(ms[..|ms| - 1], i);
      assert ms[..|ms| - 1][..i] == ms[..i];
    } else if i > 0 {
      RepliesAt(ms[..|ms| - 1], 0);
    }
  }

  /** The answers of a run, told by its messages: a registration succeeds; a question gets the identifier registered
      last before it under that name, and an error when there is none, or when it was -1; other messages are errors. */
  lemma AnsweredWithTheLatest(ms: seq<Message>, i: nat)
    requires i < |ms|
    ensures |RepliesTo(ms)| == |ms|
    ensures ms[i].Register? ==> RepliesTo(ms)[i] == Ok(ms[i].name, ms[i].tid)
    ensures ms[i].Unknown? ==> RepliesTo(ms)[i].Error? && RepliesTo(ms)[i].name == ms[i].name
    ensures forall j: nat :: ms[i].WhoIs? && LatestBefore(ms, i, j) ==>
      RepliesTo(ms)[i] == if ms[j].tid == -1 then Error(ms[i].name, -1) else Ok(ms[i].name, ms[j].tid)
    ensures ms[i].WhoIs? && (forall j: nat :: !LatestBefore(ms, i, j)) ==> RepliesTo(ms)[i] == Error(ms[i].name, -1)
  {
    hide RepliesTo, After;
    RepliesAt(ms, i);
    forall j: nat | ms[i].WhoIs? && LatestBefore(ms, i, j)
      ensures ms[i].name in After(ms[..i]) && After(ms[..i])[ms[i].name] == ms[j].tid
    {
      LatestWins(ms[..i], j);
    }
    if forall j: nat :: !LatestBefore(ms, i, j) {
      NotRegistered(ms, i);
      UnregisteredIsUnknown(ms[..i], ms[i].name);
    }
  }

  /** Message j registers the name that message i is about, and no message between them does. */
  predicate LatestBefore(ms: seq<Message>, i: nat, j: nat) {
    j < i < |ms| && ms[j].Register? && ms[j].name == ms[i].name &&
    forall k :: j < k < i && ms[k].Register? ==> ms[k].name != ms[i].name
  }

  /** Without a latest registration there is none. */
  lemma NotRegistered(ms: seq<Message>, i: nat)
    requires i < |ms| && forall j: nat :: !LatestBefore(ms, i, j)
    ensures forall j :: 0 <= j < i && ms[j].Register? ==> ms[j].name != ms[i].name
  {
    if exists j: nat :: j < i && ms[j].Register? && ms[j].name == ms[i].name {
      var j := LastRegistration(ms, i, i);
      assert LatestBefore(ms, i, j);
    }
  }

  lemma {:induction false} LastRegistration(ms: seq<Message>, i: nat, n: nat) returns (j: nat)
    requires n <= i < |ms| && exists k: nat :: k < n && ms[k].Register? && ms[k].name == ms[i].name
    ensures j < n && ms[j].Register? && ms[j].name == ms[i].name
    ensures forall k :: j < k < n && ms[k].Register? ==> ms[k].name != ms[i].name
  {
    if ms[n - 1].Register? && ms[n - 1].name == ms[i].name {
      j := n - 1;
    } else {
      j := LastRegistration(ms, i, n - 1);
    }
  }
}
