/** The slot-to-key index of a cluster node: an ordered set of slot-prefixed keys
    and a counter per slot, kept beside the dictionary. */
module SlotIndex {
  import opened Options

  const SLOTS: nat := 16384

  type Byte = b: nat | b < 256
  type Key = seq<Byte>
  type Value = nat

  // -------- The slot of a key --------

  const OPEN: Byte := 123   // '{'
  const CLOSE: Byte := 125  // '}'

  /** The first position from i on that holds b, or the length. */
  function Find(s: Key, b: Byte, i: nat): (j: nat)
    requires i <= |s|
    ensures i <= j <= |s| && (j < |s| ==> s[j] == b) && forall k :: i <= k < j ==> s[k] != b
    decreases |s| - i
  {
    if i == |s| || s[i] == b then i else Find(s, b, i + 1)
  }

  /** What is hashed: the text between the first '{' and the next '}', unless
      there is none or it is empty. */
  function HashTag(key: Key): Key {
    var s := Find(key, OPEN, 0);
    if s == |key| then key
    else
      var e := Find(key, CLOSE, s + 1);
      if e == |key| || e == s + 1 then key else key[s + 1..e]
  }

  function Slot(hash: Key -> nat, key: Key): (n: nat)
    ensures n < SLOTS
  {
    hash(HashTag(key)) % SLOTS
  }

  /** Keys with the same tag share a slot. */
  lemma SameTagSameSlot(hash: Key -> nat, before: Key, tag: Key, after: Key, before': Key, after': Key)
    requires OPEN !in before && OPEN !in before' && tag != [] && CLOSE !in tag
    ensures Slot(hash, before + [OPEN] + tag + [CLOSE] + after) == Slot(hash, before' + [OPEN] + tag + [CLOSE] + after')
  {
    TagFound(before, tag, after);
    TagFound(before', tag, after');
  }

  lemma TagFound(before: Key, tag: Key, after: Key)
    requires OPEN !in before && tag != [] && CLOSE !in tag
    ensures HashTag(before + [OPEN] + tag + [CLOSE] + after) == tag
  {
    var key := before + [OPEN] + tag + [CLOSE] + after;
    var s := |before|;
    var e := s + 1 + |tag|;
    assert key[s] == OPEN && key[e] == CLOSE && key[s + 1..e] == tag;
    assert forall k :: 0 <= k < s ==> key[k] == before[k];
    assert forall k :: s + 1 <= k < e ==> key[k] == tag[k - s - 1];
    assert Find(key, OPEN, 0) == s;
    assert Find(key, CLOSE, s + 1) == e;
  }

  /** `keyHashSlot`. */
  method KeyHashSlot(hash: Key -> nat, key: Key) returns (slot: nat)
    ensures slot == Slot(hash, key)
  {
    var s := 0;
    while s < |key| && key[s] != OPEN
      invariant 0 <= s <= |key| && Find(key, OPEN, 0) == Find(key, OPEN, s)
    {
      s := s + 1;
    }
    if s == |key| { return hash(key) % SLOTS; }
    var e := s + 1;
    while e < |key| && key[e] != CLOSE
      invariant s + 1 <= e <= |key| && Find(key, CLOSE, s + 1) == Find(key, CLOSE, e)
    {
      e := e + 1;
    }
    if e == |key| || e == s + 1 { return hash(key) % SLOTS; }
    slot := hash(key[s + 1..e]) % SLOTS;
  }

  // -------- Order of the index --------

  /** Byte order, a prefix before its extensions. */
  predicate Le(x: Key, y: Key) {
    x == [] || (y != [] && (x[0] < y[0] || (x[0] == y[0] && Le(x[1..], y[1..]))))
  }

  lemma {:induction false} LeRefl(x: Key)
    ensures Le(x, x)
  {
    if x != [] { LeRefl(x[1..]); }
  }

  lemma {:induction false} LeTrans(x: Key, y: Key, z: Key)
    requires Le(x, y) && Le(y, z)
    ensures Le(x, z)
  {
    if x != [] && x[0] == y[0] == z[0] { LeTrans(x[1..], y[1..], z[1..]); }
  }

  lemma {:induction false} LeTotal(x: Key, y: Key)
    ensures Le(x, y) || Le(y, x)
  {
    if x != [] && y != [] && x[0] == y[0] { LeTotal(x[1..], y[1..]); }
  }

  lemma {:induction false} LeAntisym(x: Key, y: Key)
    requires Le(x, y) && Le(y, x)
    ensures x == y
  {
    if x != [] {
      LeAntisym(x[1..], y[1..]);
      assert x == [x[0]] + x[1..] && y == [y[0]] + y[1..];
    }
  }

  predicate Starts(p: Key, x: Key) { |p| <= |x| && x[..|p|] == p }

  lemma {:induction false} StartsIsLe(p: Key, x: Key)
    requires Starts(p, x)
    ensures Le(p, x)
  {
    if p != [] {
      assert x[0] == x[..|p|][0] == p[0];
      assert x[1..][..|p| - 1] == x[..|p|][1..] == p[1..];
      StartsIsLe(p[1..], x[1..]);
    }
  }

  /** Everything between a prefix and one of its extensions extends it too. */
  lemma {:induction false} Between(p: Key, x: Key, y: Key)
    requires Le(p, x) && Le(x, y) && Starts(p, y)
    ensures Starts(p, x)
  {
    if p != [] {
      assert y[0] == y[..|p|][0] == p[0];
      assert y[1..][..|p| - 1] == y[..|p|][1..] == p[1..];
      assert x[0] == p[0];
      Between(p[1..], x[1..], y[1..]);
      assert x[..|p|] == [x[0]] + x[1..][..|p| - 1];
    }
  }

  // -------- Index entries --------

  function Prefix(slot: nat): (p: Key)
    requires slot < SLOTS
    ensures |p| == 2
  {
    [slot / 256, slot % 256]
  }

  function Entry(hash: Key -> nat, key: Key): Key { Prefix(Slot(hash, key)) + key }

  lemma EntryStarts(hash: Key -> nat, key: Key, slot: nat)
    requires slot < SLOTS
    ensures Starts(Prefix(slot), Entry(hash, key)) <==> Slot(hash, key) == slot
    ensures Entry(hash, key)[2..] == key
  {
    assert Entry(hash, key)[..2] == Prefix(Slot(hash, key));
    if Prefix(slot) == Prefix(Slot(hash, key)) {
      assert Prefix(slot)[0] == Prefix(Slot(hash, key))[0] && Prefix(slot)[1] == Prefix(Slot(hash, key))[1];
    }
  }

  lemma EntryInjective(hash: Key -> nat, a: Key, b: Key)
    requires Entry(hash, a) == Entry(hash, b)
    ensures a == b
  {
    EntryStarts(hash, a, 0);
    EntryStarts(hash, b, 0);
  }

  function Entries(hash: Key -> nat, keys: set<Key>): set<Key> { set k | k in keys :: Entry(hash, k) }

  function InSlot(hash: Key -> nat, keys: set<Key>, slot: nat): set<Key> { set k | k in keys && Slot(hash, k) == slot }

  /** The index holds exactly the prefixed keys, and every counter the number of
      keys in its slot. */
  ghost predicate Agrees(hash: Key -> nat, keys: set<Key>, index: set<Key>, count: seq<nat>) {
    && index == Entries(hash, keys)
    && |count| == SLOTS && forall j :: 0 <= j < SLOTS ==> count[j] == |InSlot(hash, keys, j)|
  }

  lemma AgreesAdd(hash: Key -> nat, keys: set<Key>, index: set<Key>, count: seq<nat>, key: Key)
    requires Agrees(hash, keys, index, count) && key !in keys
    ensures var n := Slot(hash, key);
            Agrees(hash, keys + {key}, index + {Entry(hash, key)}, count[n := count[n] + 1])
  {
    var n := Slot(hash, key);
    forall j | 0 <= j < SLOTS ensures count[n := count[n] + 1][j] == |InSlot(hash, keys + {key}, j)| {
      if j == n {
        assert InSlot(hash, keys + {key}, j) == InSlot(hash, keys, j) + {key};
      } else {
        assert InSlot(hash, keys + {key}, j) == InSlot(hash, keys, j);
      }
    }
  }

  lemma AgreesRemove(hash: Key -> nat, keys: set<Key>, index: set<Key>, count: seq<nat>, key: Key)
    requires Agrees(hash, keys, index, count) && key in keys
    ensures var n := Slot(hash, key);
            count[n] > 0 && Agrees(hash, keys - {key}, index - {Entry(hash, key)}, count[n := count[n] - 1])
  {
    var n := Slot(hash, key);
    assert key in InSlot(hash, keys, n);
    forall j | 0 <= j < SLOTS ensures count[n := count[n] - 1][j] == |InSlot(hash, keys - {key}, j)| {
      if j == n {
        assert InSlot(hash, keys - {key}, j) == InSlot(hash, keys, j) - {key};
      } else {
        assert InSlot(hash, keys - {key}, j) == InSlot(hash, keys, j);
      }
    }
    forall e ensures e in index - {Entry(hash, key)} <==> e in Entries(hash, keys - {key}) {
      if e in index - {Entry(hash, key)} {
        var k :| k in keys && Entry(hash, k) == e;
        assert k in keys - {key};
      }
      if e in Entries(hash, keys - {key}) {
        var k :| k in keys - {key} && Entry(hash, k) == e;
        if Entry(hash, k) == Entry(hash, key) { EntryInjective(hash, k, key); }
      }
    }
  }

  // -------- Seeking --------

  /** The first entry at or after p. */
  ghost predicate IsFirst(index: set<Key>, p: Key, e: Key) {
    e in index && Le(p, e) && forall x :: x in index && Le(p, x) ==> Le(e, x)
  }

  /** `raxSeek` with ">=" and `raxNext`, on the set of entries. */
  method First(index: set<Key>, p: Key, ghost some: Key) returns (e: Key)
    requires some in index && Le(p, some)
    ensures IsFirst(index, p, e)
  {
    var rest := index;
    var found := false;
    e := [];
    while rest != {}
      invariant rest <= index && (found || some in rest)
      invariant found ==> e in index - rest && Le(p, e) && forall x :: x in index - rest && Le(p, x) ==> Le(e, x)
      invariant !found ==> forall x :: x in index - rest ==> !Le(p, x)
    {
      var x :| x in rest;
      rest := rest - {x};
      if Le(p, x) && (!found || Le(x, e)) {
        forall y | y in index - rest && Le(p, y) ensures Le(x, y) {
          if y == x { LeRefl(x); } else { LeTrans(x, e, y); }
        }
        e, found := x, true;
      } else if found {
        LeTotal(x, e);
      }
    }
  }

  /** The first entry at or after a slot's prefix belongs to the slot, if the slot
      has any. */
  lemma FirstOfSlot(hash: Key -> nat, keys: set<Key>, slot: nat, e: Key, some: Key) returns (k: Key)
    requires slot < SLOTS && some in InSlot(hash, keys, slot) && IsFirst(Entries(hash, keys), Prefix(slot), e)
    ensures k in InSlot(hash, keys, slot) && e == Entry(hash, k) && e[2..] == k
  {
    var y := Entry(hash, some);
    EntryStarts(hash, some, slot);
    StartsIsLe(Prefix(slot), y);
    assert y in Entries(hash, keys);
    Between(Prefix(slot), e, y);
    k :| k in keys && Entry(hash, k) == e;
    EntryStarts(hash, k, slot);
  }

  lemma SlotMinus(hash: Key -> nat, keys: set<Key>, k: Key, slot: nat)
    requires k in InSlot(hash, keys, slot)
    ensures |InSlot(hash, keys - {k}, slot)| == |InSlot(hash, keys, slot)| - 1
  {
    assert InSlot(hash, keys - {k}, slot) == InSlot(hash, keys, slot) - {k};
  }

  function Elements(keys: seq<Key>): set<Key> { set k | k in keys }

  /** Ascending keys of the set, before all that are not listed. */
  ghost predicate FirstKeys(all: set<Key>, keys: seq<Key>) {
    && (forall i :: 0 <= i < |keys| ==> keys[i] in all)
    && (forall i, j :: 0 <= i < j < |keys| ==> Le(keys[i], keys[j]) && keys[i] != keys[j])
    && forall i, k :: 0 <= i < |keys| && k in all - Elements(keys) ==> Le(keys[i], k)
  }

  lemma {:induction false} FirstKeysSize(all: set<Key>, keys: seq<Key>)
    requires FirstKeys(all, keys)
    ensures |Elements(keys)| == |keys| <= |all| && Elements(keys) <= all
  {
    DistinctSize(keys);
    SubsetSize(Elements(keys), all);
  }

  lemma {:induction false} DistinctSize(keys: seq<Key>)
    requires forall i, j :: 0 <= i < j < |keys| ==> keys[i] != keys[j]
    ensures |Elements(keys)| == |keys|
  {
    if keys != [] {
      var n := |keys| - 1;
      DistinctSize(keys[..n]);
      assert Elements(keys) == Elements(keys[..n]) + {keys[n]};
    }
  }

  lemma {:induction false} SubsetSize(a: set<Key>, b: set<Key>)
    requires a <= b
    ensures |a| <= |b|
    decreases a
  {
    if a != {} {
      var x :| x in a;
      SubsetSize(a - {x}, b - {x});
    }
  }

  lemma LePrefix(p: Key, a: Key, b: Key)
    requires |p| == 2
    ensures Le(p + a, p + b) <==> Le(a, b)
  {
    assert (p + a)[1..] == [p[1]] + a && (p + b)[1..] == [p[1]] + b;
    assert ([p[1]] + a)[1..] == a && ([p[1]] + b)[1..] == b;
  }

  lemma SameStart(slot: nat, e: Key)
    requires slot < SLOTS && |e| >= 2 && e[0] == slot / 256 && e[1] == slot % 256
    ensures Starts(Prefix(slot), e)
  {
    assert e[..2] == Prefix(slot);
  }

  lemma Extend(all: set<Key>, taken: seq<Key>, k: Key)
    requires FirstKeys(all, taken) && k in all - Elements(taken)
    requires forall r :: r in all - Elements(taken) && r != k ==> Le(k, r)
    ensures FirstKeys(all, taken + [k])
  {
    var now := taken + [k];
    assert Elements(now) == Elements(taken) + {k};
    assert forall i :: 0 <= i < |taken| ==> now[i] == taken[i];
    forall i, r | 0 <= i < |now| && r in all - Elements(now) ensures Le(now[i], r) {
      assert r in all - Elements(taken);
    }
  }

  /** The next entry of the slot is its least key not yet listed. */
  lemma TakeFirst(hash: Key -> nat, keys: set<Key>, taken: seq<Key>, slot: nat, e: Key, k: Key)
    requires slot < SLOTS && FirstKeys(InSlot(hash, keys, slot), taken) && Starts(Prefix(slot), e)
    requires k in keys - Elements(taken) && Entry(hash, k) == e
    requires IsFirst(Entries(hash, keys - Elements(taken)), Prefix(slot), e)
    ensures e[2..] == k && FirstKeys(InSlot(hash, keys, slot), taken + [e[2..]])
  {
    var all := InSlot(hash, keys, slot);
    EntryStarts(hash, k, slot);
    forall r | r in all - Elements(taken) && r != k ensures Le(k, r) {
      LeastKey(hash, keys - Elements(taken), slot, e, k, r);
    }
    Extend(all, taken, k);
  }

  lemma LeastKey(hash: Key -> nat, rest: set<Key>, slot: nat, e: Key, k: Key, r: Key)
    requires slot < SLOTS && IsFirst(Entries(hash, rest), Prefix(slot), e) && Entry(hash, k) == e
    requires Slot(hash, k) == slot
    requires r in rest && Slot(hash, r) == slot
    ensures Le(k, r)
  {
    var y := Entry(hash, r);
    assert y in Entries(hash, rest);
    EntryStarts(hash, r, slot);
    StartsIsLe(Prefix(slot), y);
    LePrefix(Prefix(slot), k, r);
  }

  lemma Without1(hash: Key -> nat, keys: set<Key>, taken: seq<Key>, k: Key)
    requires k in keys - Elements(taken)
    ensures Entries(hash, keys - Elements(taken)) - {Entry(hash, k)} == Entries(hash, keys - Elements(taken + [k]))
  {
    var rest := keys - Elements(taken);
    assert keys - Elements(taken + [k]) == rest - {k};
    forall e ensures e in Entries(hash, rest) - {Entry(hash, k)} <==> e in Entries(hash, rest - {k}) {
      if e in Entries(hash, rest) - {Entry(hash, k)} {
        var r :| r in rest && Entry(hash, r) == e;
        assert r in rest - {k};
      }
      if e in Entries(hash, rest - {k}) {
        var r :| r in rest - {k} && Entry(hash, r) == e;
        if Entry(hash, r) == Entry(hash, k) { EntryInjective(hash, r, k); }
      }
    }
  }

  lemma NothingAhead(hash: Key -> nat, rest: set<Key>, slot: nat)
    requires slot < SLOTS && !exists x :: x in Entries(hash, rest) && Le(Prefix(slot), x)
    ensures InSlot(hash, rest, slot) == {}
  {
    forall r | r in rest ensures Slot(hash, r) != slot {
      EntryStarts(hash, r, slot);
      assert Entry(hash, r) in Entries(hash, rest);
      if Slot(hash, r) == slot { StartsIsLe(Prefix(slot), Entry(hash, r)); }
    }
  }

  lemma NoDifference(a: set<Key>, b: set<Key>)
    requires a - b == {} && b <= a
    ensures a == b
  {
    forall x | x in a ensures x in b { assert x !in a - b; }
  }

  lemma Listed(hash: Key -> nat, keys: set<Key>, slot: nat, taken: seq<Key>)
    requires FirstKeys(InSlot(hash, keys, slot), taken)
    ensures |taken| <= |InSlot(hash, keys, slot)|
    ensures InSlot(hash, keys - Elements(taken), slot) == {} ==> |taken| == |InSlot(hash, keys, slot)|
  {
    FirstKeysSize(InSlot(hash, keys, slot), taken);
    assert InSlot(hash, keys - Elements(taken), slot) == InSlot(hash, keys, slot) - Elements(taken);
    if InSlot(hash, keys, slot) - Elements(taken) == {} { NoDifference(InSlot(hash, keys, slot), Elements(taken)); }
  }

  /** When the first entry ahead is of another slot, or there is none, the slot
      has no more keys. */
  lemma OtherSlot(hash: Key -> nat, rest: set<Key>, slot: nat, e: Key)
    requires slot < SLOTS && IsFirst(Entries(hash, rest), Prefix(slot), e) && |e| >= 2
    requires e[0] != slot / 256 || e[1] != slot % 256
    ensures InSlot(hash, rest, slot) == {}
  {
    forall r | r in rest ensures Slot(hash, r) != slot {
      if Slot(hash, r) == slot {
        var k := FirstOfSlot(hash, rest, slot, e, r);
        EntryHead(hash, k);
      }
    }
  }

  lemma EntryHead(hash: Key -> nat, k: Key)
    ensures Entry(hash, k)[0] == Slot(hash, k) / 256 && Entry(hash, k)[1] == Slot(hash, k) % 256
  {}

  // -------- The database --------

  class Database {
    const hash: Key -> nat
    var dict: map<Key, Value>
    var expires: map<Key, int>
    var index: set<Key>
    var count: seq<nat>

    ghost predicate Valid()
      reads this
    {
      Agrees(hash, dict.Keys, index, count) && expires.Keys <= dict.Keys
    }

    constructor (hash: Key -> nat)
      ensures Valid() && dict == map[] && this.hash == hash
    {
      this.hash := hash;
      dict, expires, index := map[], map[], {};
      count := seq(SLOTS, i => 0);
      new;
      assert forall j :: 0 <= j < SLOTS ==> InSlot(hash, dict.Keys, j) == {};
    }

    /** `slotToKeyUpdateKey`. */
    method SlotToKeyUpdateKey(key: Key, add: bool)
      requires |count| == SLOTS && (!add ==> count[Slot(hash, key)] > 0)
      modifies this`index, this`count
      ensures var n := Slot(hash, key);
              if add then index == old(index) + {Entry(hash, key)} && count == old(count)[n := old(count)[n] + 1]
              else index == old(index) - {Entry(hash, key)} && count == old(count)[n := old(count)[n] - 1]
    {
      var slot := KeyHashSlot(hash, key);
      count := count[slot := count[slot] + if add then 1 else -1];
      var indexed := [slot / 256, slot % 256] + key;
      index := if add then index + {indexed} else index - {indexed};
    }

    /** `dbAdd`; its assertion is that the key is new. */
    method DbAdd(key: Key, val: Value)
      requires Valid() && key !in dict
      modifies this
      ensures Valid() && dict == old(dict)[key := val] && expires == old(expires)
    {
      AgreesAdd(hash, dict.Keys, index, count, key);
      dict := dict[key := val];
      assert dict.Keys == old(dict.Keys) + {key};
      SlotToKeyUpdateKey(key, true);
    }

    /** `dbSyncDelete`. */
    method DbSyncDelete(key: Key) returns (deleted: bool)
      requires Valid()
      modifies this
      ensures Valid() && dict == old(dict) - {key} && expires == old(expires) - {key}
      ensures deleted <==> key in old(dict)
    {
      expires := expires - {key};
      deleted := key in dict;
      if deleted {
        AgreesRemove(hash, dict.Keys, index, count, key);
        dict := dict - {key};
        assert dict.Keys == old(dict.Keys) - {key};
        SlotToKeyUpdateKey(key, false);
      } else {
        assert dict - {key} == dict;
      }
    }

    /** `setKey` on a master: an expired key is deleted first. */
    method SetKey(key: Key, val: Value, now: int)
      requires Valid()
      modifies this
      ensures Valid() && dict == old(dict)[key := val] && expires == old(expires) - {key}
    {
      if key in expires && now > expires[key] {
        var _ := DbSyncDelete(key);
      }
      if key !in dict {
        DbAdd(key, val);
      } else {
        dict := dict[key := val];
        assert dict.Keys == old(dict.Keys);
      }
      expires := expires - {key};
    }

    /** `emptyDb` with `slotToKeyFlush`. */
    method Flush()
      requires Valid()
      modifies this
      ensures Valid() && dict == map[] && expires == map[]
    {
      dict, expires, index := map[], map[], {};
      count := seq(SLOTS, i => 0);
      assert forall j :: 0 <= j < SLOTS ==> InSlot(hash, dict.Keys, j) == {};
    }

    /** `getKeysInSlot`: the first keys of the slot in order, as many as asked for
        or as there are. */
    method GetKeysInSlot(slot: nat, limit: nat) returns (keys: seq<Key>)
      requires Valid() && slot < SLOTS
      ensures FirstKeys(InSlot(hash, dict.Keys, slot), keys)
      ensures |keys| == if limit < count[slot] then limit else count[slot]
    {
      ghost var all := InSlot(hash, dict.Keys, slot);
      keys := [];
      assert dict.Keys - Elements(keys) == dict.Keys;
      var ahead, left := index, limit;
      while left > 0
        invariant 0 <= left && left + |keys| == limit && FirstKeys(all, keys)
        invariant ahead == Entries(hash, dict.Keys - Elements(keys))
      {
        ghost var rest := dict.Keys - Elements(keys);
        if !exists x :: x in ahead && Le(Prefix(slot), x) {
          NothingAhead(hash, rest, slot);
          Listed(hash, dict.Keys, slot, keys);
          break;
        }
        ghost var x :| x in ahead && Le(Prefix(slot), x);
        var e := First(ahead, Prefix(slot), x);
        ghost var k :| k in rest && Entry(hash, k) == e;
        if e[0] != slot / 256 || e[1] != slot % 256 {
          OtherSlot(hash, rest, slot, e);
          Listed(hash, dict.Keys, slot, keys);
          break;
        }
        SameStart(slot, e);
        TakeFirst(hash, dict.Keys, keys, slot, e, k);
        Without1(hash, dict.Keys, keys, k);
        left, keys, ahead := left - 1, keys + [e[2..]], ahead - {e};
      }
      Listed(hash, dict.Keys, slot, keys);
    }

    /** One round of `delKeysInSlot`: seeks the first key of the slot and deletes
        it. */
    method DelFirst(slot: nat) returns (key: Key)
      requires Valid() && slot < SLOTS && count[slot] != 0
      modifies this
      ensures Valid() && key in InSlot(hash, old(dict.Keys), slot)
      ensures dict == old(dict) - {key} && expires == old(expires) - {key} && count[slot] == old(count[slot]) - 1
    {
      ghost var some :| some in InSlot(hash, dict.Keys, slot);
      EntryStarts(hash, some, slot);
      StartsIsLe(Prefix(slot), Entry(hash, some));
      var e := First(index, Prefix(slot), Entry(hash, some));
      ghost var k := FirstOfSlot(hash, dict.Keys, slot, e, some);
      key := e[2..];
      SlotMinus(hash, dict.Keys, k, slot);
      var _ := DbSyncDelete(key);
      assert dict.Keys == old(dict.Keys) - {key};
    }

    /** `delKeysInSlot`: stops, having removed exactly the keys of the slot. */
    method DelKeysInSlot(slot: nat) returns (j: nat)
      requires Valid() && slot < SLOTS
      modifies this
      ensures Valid() && j == old(count[slot]) && count[slot] == 0
      ensures dict == old(dict) - InSlot(hash, old(dict.Keys), slot)
      ensures expires == old(expires) - InSlot(hash, old(dict.Keys), slot)
    {
      ghost var all := InSlot(hash, dict.Keys, slot);
      ghost var gone: set<Key> := {};
      j := 0;
      while count[slot] != 0
        invariant Valid() && gone <= all && j + count[slot] == old(count[slot])
        invariant dict == old(dict) - gone && expires == old(expires) - gone
        decreases count[slot]
      {
        var key := DelFirst(slot);
        gone := gone + {key};
        assert old(dict) - gone == dict && old(expires) - gone == expires;
        j := j + 1;
      }
      NoneLeft(hash, old(dict.Keys), dict.Keys, gone, slot);
    }
  }

  lemma NoneLeft(hash: Key -> nat, keys: set<Key>, left: set<Key>, gone: set<Key>, slot: nat)
    requires gone <= InSlot(hash, keys, slot) && left == keys - gone && |InSlot(hash, left, slot)| == 0
    ensures gone == InSlot(hash, keys, slot)
  {
    assert InSlot(hash, left, slot) == InSlot(hash, keys, slot) - gone;
  }
}
