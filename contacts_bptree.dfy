// kernel/data_structures/contacts_bptree.c: contacts kept in two files. The data file holds
// the names, each as a length byte followed by that many bytes; the tree file holds leaf nodes
// of up to 4 keys (names cut to 15 characters), each with the data-file offset of its record.
// A leaf is kept sorted by inserting its new key behind every larger one.

module ContactsBPTree {
  import opened Wrappers
  import CStr

  const MaxKeys: int := 4
  /** `MAX_KEY_LEN`: the bytes of a key buffer, so a key holds at most 15 characters. */
  const MaxKeyLen: int := 16
  /** `MAX_NAME_LEN`: the bytes of a name buffer, so a record holds at most 63 characters. */
  const MaxNameLen: int := 64
  const VisibleCount: int := 8

  /** `BPTreeNode`. Every key slot is a C string of less than `MaxKeyLen` characters; slots past
    * `keyCount` hold whatever was last there. */
  datatype Node = Node(keys: seq<seq<char>>, children: seq<int>, next: int, isLeaf: bool, keyCount: int)

  predicate WellFormed(n: Node)
  {
    |n.keys| == MaxKeys && |n.children| == MaxKeys + 1 && 0 <= n.keyCount <= MaxKeys &&
    forall k :: 0 <= k < MaxKeys ==> CStr.NoNul(n.keys[k]) && |n.keys[k]| < MaxKeyLen
  }

  /** The empty root leaf `bptree_create` writes into a new tree file. */
  const EmptyLeaf: Node := Node(["", "", "", ""], [0, 0, 0, 0, 0], 0, true, 0)

  /** A value stored in a `uint8_t`. */
  function U8(v: int): (r: int)
    ensures 0 <= r < 256
    ensures 0 <= v < 256 ==> r == v
  {
    v % 256
  }

  // ---------------------------------------------------------------------------------------
  // Records of the data file

  /** The length byte `contacts_append` writes for a name of `n` characters: `n` is cast to a
    * `uint8_t` before it is capped at 63. */
  function RecordLength(n: nat): (len: nat)
    ensures len <= MaxNameLen - 1
    ensures n < 256 ==> len == if n < MaxNameLen - 1 then n else MaxNameLen - 1
  {
    if U8(n) > MaxNameLen - 1 then MaxNameLen - 1 else U8(n)
  }

  /** The length the cap was written for, on the full length of the name. */
  function IntendedRecordLength(n: nat): (len: nat)
    ensures len <= MaxNameLen - 1 && len <= n
    ensures len == n || len == MaxNameLen - 1
  {
    if n > MaxNameLen - 1 then MaxNameLen - 1 else n
  }

  /** The bytes `contacts_append` adds for `name` at the end of the data file. */
  function Record(name: seq<char>): (r: seq<char>)
    ensures |r| == 1 + RecordLength(|name|)
    ensures r[0] as int == RecordLength(|name|) && r[1..] == name[..RecordLength(|name|)]
  {
    var len := RecordLength(|name|);
    [len as char] + name[..len]
  }

  /** `contacts_read(file, offset, out)`: the bytes of the record at `offset`, or nothing when the
    * record does not lie inside the file (the firmware would read past its end). */
  function ReadRecord(file: seq<char>, offset: int): (r: Option<seq<char>>)
    ensures r.Some? <==> 0 <= offset < |file| && offset + 1 + file[offset] as int <= |file|
    ensures r.Some? ==> |r.value| == file[offset] as int && r.value == file[offset + 1..offset + 1 + |r.value|]
  {
    if 0 <= offset < |file| && offset + 1 + file[offset] as int <= |file| then
      Some(file[offset + 1..offset + 1 + file[offset] as int])
    else
      None
  }

  /** Reading back the record just appended gives the name cut to its record length, and every
    * record already in the file still reads the same. */
  lemma AppendThenRead(file: seq<char>, name: seq<char>, offset: int)
    ensures ReadRecord(file + Record(name), |file|) == Some(name[..RecordLength(|name|)])
    ensures ReadRecord(file, offset).Some? ==> ReadRecord(file + Record(name), offset) == ReadRecord(file, offset)
  {
    var f := file + Record(name);
    assert f[|file|] == Record(name)[0];
    assert f[|file| + 1..|file| + 1 + RecordLength(|name|)] == Record(name)[1..];
    if ReadRecord(file, offset).Some? {
      assert f[offset + 1..offset + 1 + file[offset] as int] == file[offset + 1..offset + 1 + file[offset] as int];
    }
  }

  /** A name of 256 characters is stored with the length byte 0, and reads back empty, not as
    * its first 63 characters; the intended cap gives those. */
  lemma LongNameRecordEmpty(name: seq<char>)
    requires |name| == 256
    ensures RecordLength(|name|) == 0 && ReadRecord(Record(name), 0) == Some([])
    ensures IntendedRecordLength(|name|) == MaxNameLen - 1
  {
    AppendThenRead([], name, 0);
    assert [] + Record(name) == Record(name);
  }

  /** With the intended cap every name reads back as its first 63 characters. */
  lemma IntendedRecordRoundTrip(name: seq<char>)
    ensures var len := IntendedRecordLength(|name|);
      len == |CStr.Truncate(name, MaxNameLen - 1)| && name[..len] == CStr.Truncate(name, MaxNameLen - 1)
    ensures |name| < 256 ==> RecordLength(|name|) == IntendedRecordLength(|name|)
  {
  }

  // ---------------------------------------------------------------------------------------
  // Keys

  /** `strncmp(a, b, n)` on two C strings, as -1, 0 or 1: the first difference within `n`
    * characters decides, and the end of a string reads as NUL. */
  function StrNCmp(a: seq<char>, b: seq<char>, n: nat): (r: int)
    ensures -1 <= r <= 1
  {
    if n == 0 then 0
    else
      var ca := if a == [] then CStr.NUL else a[0];
      var cb := if b == [] then CStr.NUL else b[0];
      if ca != cb then (if ca < cb then -1 else 1)
      else if ca == CStr.NUL then 0
      else StrNCmp(a[1..], b[1..], n - 1)
  }

  /** Swapping the strings flips the result. */
  lemma {:induction false} StrNCmpFlip(a: seq<char>, b: seq<char>, n: nat)
    ensures StrNCmp(b, a, n) == -StrNCmp(a, b, n)
  {
    if n > 0 && a != [] && b != [] && a[0] == b[0] && a[0] != CStr.NUL {
      StrNCmpFlip(a[1..], b[1..], n - 1);
    }
  }

  /** The order `strncmp` gives is transitive. */
  lemma {:induction false} StrNCmpTransitive(a: seq<char>, b: seq<char>, c: seq<char>, n: nat)
    requires StrNCmp(a, b, n) <= 0 && StrNCmp(b, c, n) <= 0
    ensures StrNCmp(a, c, n) <= 0
  {
    if n > 0 {
      var ca := if a == [] then CStr.NUL else a[0];
      var cb := if b == [] then CStr.NUL else b[0];
      var cc := if c == [] then CStr.NUL else c[0];
      if ca == cb && cb == cc && ca != CStr.NUL {
        StrNCmpTransitive(a[1..], b[1..], c[1..], n - 1);
      }
    }
  }

  /** Two C strings compare equal within `n` characters exactly when they are the same string,
    * or both are at least `n` long and agree on the first `n`. */
  lemma {:induction false} StrNCmpZero(a: seq<char>, b: seq<char>, n: nat)
    requires CStr.NoNul(a) && CStr.NoNul(b)
    ensures StrNCmp(a, b, n) == 0 <==> a == b || (|a| >= n && |b| >= n && a[..n] == b[..n])
  {
    if n > 0 && a != [] && b != [] && a[0] == b[0] {
      StrNCmpZero(a[1..], b[1..], n - 1);
      assert a == [a[0]] + a[1..] && b == [b[0]] + b[1..];
      if |a| >= n && |b| >= n {
        assert a[..n] == [a[0]] + a[1..][..n - 1] && b[..n] == [b[0]] + b[1..][..n - 1];
      }
    }
  }

  /** The key of a name: its first 15 characters, NUL-padded in the 16-byte buffer. */
  function KeyOf(name: seq<char>): (k: seq<char>)
    requires CStr.NoNul(name)
    ensures CStr.NoNul(k) && |k| < MaxKeyLen && k == CStr.Truncate(name, MaxKeyLen - 1)
  {
    CStr.Truncate(name, MaxKeyLen - 1)
  }

  /** The keys of a leaf in `strncmp` order. */
  ghost predicate Sorted(n: Node)
    requires WellFormed(n)
  {
    forall i, j :: 0 <= i < j < n.keyCount ==> StrNCmp(n.keys[i], n.keys[j], MaxKeyLen) <= 0
  }

  // ---------------------------------------------------------------------------------------
  // Leaf insertion and search, on node values

  /** Where `bptree_insert_leaf` puts `key`: walking down from `pos`, past every key that
    * compares greater. */
  function InsertPos(keys: seq<seq<char>>, pos: int, key: seq<char>): (p: int)
    requires 0 <= pos <= |keys|
    ensures 0 <= p <= pos
  {
    if pos > 0 && StrNCmp(key, keys[pos - 1], MaxKeyLen) < 0 then InsertPos(keys, pos - 1, key) else pos
  }

  /** The insertion point sits behind every key from it up to `pos`, all greater than `key`, and
    * after a key that is not. */
  lemma {:induction false} InsertPosBetween(keys: seq<seq<char>>, pos: int, key: seq<char>)
    requires 0 <= pos <= |keys|
    ensures var p := InsertPos(keys, pos, key);
      (p > 0 ==> StrNCmp(key, keys[p - 1], MaxKeyLen) >= 0) &&
      forall k :: p <= k < pos ==> StrNCmp(key, keys[k], MaxKeyLen) < 0
  {
    if pos > 0 && StrNCmp(key, keys[pos - 1], MaxKeyLen) < 0 {
      InsertPosBetween(keys, pos - 1, key);
    }
  }

  /** A leaf with `key` and its `child` inserted at `InsertPos`: the entries before it stay, the
    * ones from it to the old count move one slot up with their children. */
  function Inserted(n: Node, key: seq<char>, child: int): (r: Node)
    requires WellFormed(n) && n.keyCount < MaxKeys
    ensures |r.keys| == MaxKeys && |r.children| == MaxKeys + 1 && r.keyCount == n.keyCount + 1
  {
    var p := InsertPos(n.keys, n.keyCount, key);
    n.(keys := n.keys[..p] + [key] + n.keys[p..n.keyCount] + n.keys[n.keyCount + 1..],
       children := n.children[..p] + [child] + n.children[p..n.keyCount] + n.children[n.keyCount + 1..],
       keyCount := n.keyCount + 1)
  }

  /** The entries of a leaf, each key with its child. */
  function Entries(n: Node): seq<(seq<char>, int)>
    requires |n.keys| == MaxKeys && |n.children| == MaxKeys + 1 && 0 <= n.keyCount <= MaxKeys
  {
    seq(n.keyCount, i requires 0 <= i < n.keyCount => (n.keys[i], n.children[i]))
  }

  /** The shifting loop of `bptree_insert_leaf` on its local copy of the leaf, and the new entry
    * written into the slot the loop leaves. */
  method ShiftIn(leaf: Node, key: seq<char>, child: int) returns (r: Node)
    requires WellFormed(leaf) && leaf.keyCount < MaxKeys
    ensures r == Inserted(leaf, key, child)
  {
    var keys, children := leaf.keys, leaf.children;
    var c := leaf.keyCount;
    var pos := c;
    while pos > 0 && StrNCmp(key, keys[pos - 1], MaxKeyLen) < 0
      invariant 0 <= pos <= c && Shifted(leaf, keys, children, pos)
      invariant InsertPos(leaf.keys, c, key) == InsertPos(leaf.keys, pos, key)
    {
      ShiftStep(leaf, keys, children, pos);
      keys := keys[pos := keys[pos - 1]];
      children := children[pos := children[pos - 1]];
      pos := pos - 1;
    }
    ShiftedIsInserted(leaf, key, child, keys, children, pos);
    keys := keys[pos := key];
    children := children[pos := child];
    r := leaf.(keys := keys, children := children, keyCount := c + 1);
  }

  /** The local copy of the leaf while the loop runs: the entries up to `pos` as they were, the
    * ones after it, up to the old count, moved one up, the rest untouched. */
  ghost predicate Shifted(leaf: Node, keys: seq<seq<char>>, children: seq<int>, pos: int)
    requires WellFormed(leaf) && leaf.keyCount < MaxKeys
  {
    0 <= pos <= leaf.keyCount && |keys| == MaxKeys && |children| == MaxKeys + 1 &&
    (forall k :: 0 <= k <= pos ==> keys[k] == leaf.keys[k] && children[k] == leaf.children[k]) &&
    (forall k :: pos < k <= leaf.keyCount ==> keys[k] == leaf.keys[k - 1] && children[k] == leaf.children[k - 1]) &&
    (forall k :: leaf.keyCount < k < MaxKeys ==> keys[k] == leaf.keys[k]) &&
    (forall k :: leaf.keyCount < k <= MaxKeys ==> children[k] == leaf.children[k])
  }

  /** One turn of the loop moves the entry at `pos - 1` up into `pos`. */
  lemma ShiftStep(leaf: Node, keys: seq<seq<char>>, children: seq<int>, pos: int)
    requires WellFormed(leaf) && leaf.keyCount < MaxKeys && Shifted(leaf, keys, children, pos) && pos > 0
    ensures Shifted(leaf, keys[pos := keys[pos - 1]], children[pos := children[pos - 1]], pos - 1)
  {
  }

  /** The state the shifting loop ends in, with the new entry written at the position it stopped
    * at, is the inserted leaf. */
  lemma ShiftedIsInserted(leaf: Node, key: seq<char>, child: int, keys: seq<seq<char>>, children: seq<int>, pos: int)
    requires WellFormed(leaf) && leaf.keyCount < MaxKeys
    requires Shifted(leaf, keys, children, pos) && pos == InsertPos(leaf.keys, leaf.keyCount, key)
    ensures leaf.(keys := keys[pos := key], children := children[pos := child], keyCount := leaf.keyCount + 1)
      == Inserted(leaf, key, child)
  {
    InsertedShape(leaf, key, child);
    var r := Inserted(leaf, key, child);
    assert keys[pos := key] == r.keys;
    assert children[pos := child] == r.children;
  }

  /** Where each entry of a leaf goes on an insertion: the ones before the insertion point stay,
    * the new entry takes that slot, the ones up to the old count move one up, the rest stay. */
  lemma InsertedShape(n: Node, key: seq<char>, child: int)
    requires WellFormed(n) && n.keyCount < MaxKeys
    ensures var r, p, c := Inserted(n, key, child), InsertPos(n.keys, n.keyCount, key), n.keyCount;
      (forall k :: 0 <= k < p ==> r.keys[k] == n.keys[k] && r.children[k] == n.children[k]) &&
      r.keys[p] == key && r.children[p] == child &&
      (forall k :: p < k <= c ==> r.keys[k] == n.keys[k - 1] && r.children[k] == n.children[k - 1]) &&
      (forall k :: c < k < MaxKeys ==> r.keys[k] == n.keys[k]) &&
      (forall k :: c < k <= MaxKeys ==> r.children[k] == n.children[k]) &&
      r.next == n.next && r.isLeaf == n.isLeaf
  {
    var p := InsertPos(n.keys, n.keyCount, key);
    SlotInserted(n.keys, p, n.keyCount, key);
    SlotInserted(n.children, p, n.keyCount, child);
  }

  /** `x` put in slot `p` of `s`, the slots from `p` to `c` moved one up over slot `c + 1`'s
    * old contents. */
  lemma SlotInserted<T>(s: seq<T>, p: int, c: int, x: T)
    requires 0 <= p <= c < |s|
    ensures var r := s[..p] + [x] + s[p..c] + s[c + 1..];
      |r| == |s| && r[p] == x &&
      (forall k :: 0 <= k < p ==> r[k] == s[k]) &&
      (forall k :: p < k <= c ==> r[k] == s[k - 1]) &&
      (forall k :: c < k < |s| ==> r[k] == s[k])
  {
  }

  /** Inserting a key of less than 16 characters keeps a leaf well formed. */
  lemma InsertKeepsWellFormed(n: Node, key: seq<char>, child: int)
    requires WellFormed(n) && n.keyCount < MaxKeys && CStr.NoNul(key) && |key| < MaxKeyLen
    ensures WellFormed(Inserted(n, key, child))
  {
    InsertedShape(n, key, child);
  }

  /** Inserting keeps a sorted leaf sorted. */
  lemma InsertKeepsSorted(n: Node, key: seq<char>, child: int)
    requires WellFormed(n) && Sorted(n) && n.keyCount < MaxKeys
    requires CStr.NoNul(key) && |key| < MaxKeyLen
    ensures WellFormed(Inserted(n, key, child)) && Sorted(Inserted(n, key, child))
  {
    var r := Inserted(n, key, child);
    var p := InsertPos(n.keys, n.keyCount, key);
    InsertKeepsWellFormed(n, key, child);
    InsertedShape(n, key, child);
    InsertPosBetween(n.keys, n.keyCount, key);
    forall i, j | 0 <= i < j < r.keyCount
      ensures StrNCmp(r.keys[i], r.keys[j], MaxKeyLen) <= 0
    {
      if j == p {
        StrNCmpFlip(key, n.keys[p - 1], MaxKeyLen);
        if i < p - 1 {
          assert StrNCmp(n.keys[i], n.keys[p - 1], MaxKeyLen) <= 0;
          StrNCmpTransitive(n.keys[i], n.keys[p - 1], key, MaxKeyLen);
        }
      } else if i == p {
        StrNCmpFlip(key, n.keys[j - 1], MaxKeyLen);
      } else if i < p < j && i < j - 1 {
        assert StrNCmp(n.keys[i], n.keys[j - 1], MaxKeyLen) <= 0;
      } else if p < i {
        assert StrNCmp(n.keys[i - 1], n.keys[j - 1], MaxKeyLen) <= 0;
      } else if j < p {
        assert StrNCmp(n.keys[i], n.keys[j], MaxKeyLen) <= 0;
      }
    }
  }

  /** Inserting adds exactly the one entry, the key paired with its own child. */
  lemma InsertAddsEntry(n: Node, key: seq<char>, child: int)
    requires WellFormed(n) && n.keyCount < MaxKeys
    ensures multiset(Entries(Inserted(n, key, child))) == multiset(Entries(n)) + multiset{(key, child)}
  {
    var p := InsertPos(n.keys, n.keyCount, key);
    EntriesOfInserted(n, key, child);
    MultisetOfInsertion(Entries(n), p, (key, child));
  }

  lemma EntriesOfInserted(n: Node, key: seq<char>, child: int)
    requires WellFormed(n) && n.keyCount < MaxKeys
    ensures var p := InsertPos(n.keys, n.keyCount, key);
      Entries(Inserted(n, key, child)) == Entries(n)[..p] + [(key, child)] + Entries(n)[p..]
  {
    var p := InsertPos(n.keys, n.keyCount, key);
    InsertedShape(n, key, child);
    var e, e0 := Entries(Inserted(n, key, child)), Entries(n);
    var e1 := e0[..p] + [(key, child)] + e0[p..];
    forall k | 0 <= k < |e|
      ensures e[k] == e1[k]
    {
      if k < p {
        assert e1[k] == e0[k];
      } else if k > p {
        assert e1[k] == e0[k - 1];
      }
    }
  }

  lemma MultisetOfInsertion<T>(s: seq<T>, p: int, x: T)
    requires 0 <= p <= |s|
    ensures multiset(s[..p] + [x] + s[p..]) == multiset(s) + multiset{x}
  {
    assert s == s[..p] + s[p..];
  }

  /** The first of the first `count` keys, from `i` on, equal to `name` within `MaxKeyLen`
    * characters. */
  function FindKey(keys: seq<seq<char>>, i: int, count: int, name: seq<char>): (r: Option<int>)
    requires 0 <= i <= count <= |keys|
    decreases count - i
    ensures r.Some? ==> i <= r.value < count && StrNCmp(keys[r.value], name, MaxKeyLen) == 0
    ensures r.Some? ==> forall k :: i <= k < r.value ==> StrNCmp(keys[k], name, MaxKeyLen) != 0
    ensures r.None? ==> forall k :: i <= k < count ==> StrNCmp(keys[k], name, MaxKeyLen) != 0
  {
    if i == count then None
    else if StrNCmp(keys[i], name, MaxKeyLen) == 0 then Some(i)
    else FindKey(keys, i + 1, count, name)
  }

  /** `bptree_search_leaf`: the child of the first matching key, or 0. */
  function SearchResult(n: Node, name: seq<char>): int
    requires WellFormed(n)
  {
    match FindKey(n.keys, 0, n.keyCount, name)
    case Some(i) => n.children[i]
    case None => 0
  }

  /** A name of less than 16 characters is found in the leaf it was just inserted into. */
  lemma InsertThenFind(n: Node, name: seq<char>, child: int)
    requires WellFormed(n) && n.keyCount < MaxKeys && CStr.NoNul(name) && |name| < MaxKeyLen
    ensures FindKey(Inserted(n, KeyOf(name), child).keys, 0, n.keyCount + 1, name).Some?
  {
    var r := Inserted(n, KeyOf(name), child);
    var p := InsertPos(n.keys, n.keyCount, KeyOf(name));
    assert r.keys[p] == name;
    StrNCmpZero(name, name, MaxKeyLen);
  }

  /** A name of 16 characters or more never matches a key, which holds at most 15: such a
    * contact, once inserted, is never found. */
  lemma LongNameNeverFound(n: Node, name: seq<char>)
    requires WellFormed(n) && CStr.NoNul(name) && |name| >= MaxKeyLen
    ensures FindKey(n.keys, 0, n.keyCount, name) == None && SearchResult(n, name) == 0
  {
    forall k | 0 <= k < n.keyCount
      ensures StrNCmp(n.keys[k], name, MaxKeyLen) != 0
    {
      StrNCmpZero(n.keys[k], name, MaxKeyLen);
    }
    NoneWhenNoMatch(n.keys, 0, n.keyCount, name);
  }

  lemma {:induction false} NoneWhenNoMatch(keys: seq<seq<char>>, i: int, count: int, name: seq<char>)
    requires 0 <= i <= count <= |keys|
    requires forall k :: i <= k < count ==> StrNCmp(keys[k], name, MaxKeyLen) != 0
    ensures FindKey(keys, i, count, name) == None
    decreases count - i
  {
    if i < count {
      NoneWhenNoMatch(keys, i + 1, count, name);
    }
  }

  /** The search the key cut was written for: the name cut the same way before comparing. Then
    * every inserted name, however long, is found. */
  function IntendedSearchResult(n: Node, name: seq<char>): int
    requires WellFormed(n) && CStr.NoNul(name)
  {
    SearchResult(n, KeyOf(name))
  }

  lemma IntendedInsertThenFind(n: Node, name: seq<char>, child: int)
    requires WellFormed(n) && n.keyCount < MaxKeys && CStr.NoNul(name)
    ensures FindKey(Inserted(n, KeyOf(name), child).keys, 0, n.keyCount + 1, KeyOf(name)).Some?
  {
    InsertThenFind(n, KeyOf(name), child);
  }

  /** The first record of an empty data file sits at offset 0, so finding it gives the same 0
    * as a miss. */
  lemma FirstRecordLooksMissing()
    ensures var leaf := Inserted(EmptyLeaf, KeyOf("Al"), 0);
      SearchResult(leaf, "Al") == 0 && SearchResult(leaf, "Bo") == 0 &&
      FindKey(leaf.keys, 0, leaf.keyCount, "Al").Some? && FindKey(leaf.keys, 0, leaf.keyCount, "Bo").None?
  {
    var leaf := Inserted(EmptyLeaf, KeyOf("Al"), 0);
    assert leaf.keys[0] == "Al" && leaf.children[0] == 0 && leaf.keyCount == 1;
    StrNCmpZero("Al", "Al", MaxKeyLen);
    StrNCmpZero("Al", "Bo", MaxKeyLen);
  }

  // ---------------------------------------------------------------------------------------
  // The files

  /** `BPTree`: the two files, the tree file as its node records by offset, and the root. */
  class BPTree {
    var dataFile: seq<char>
    var treeFile: map<int, Node>
    var rootOffset: int

    ghost predicate Valid()
      reads this
    {
      forall o :: o in treeFile ==> WellFormed(treeFile[o])
    }

    /** `bptree_create`: each file opened, or created when missing; a new tree file gets an
      * empty root leaf at offset 0. */
    constructor (data: Option<seq<char>>, tree: Option<map<int, Node>>)
      requires tree.Some? ==> forall o :: o in tree.value ==> WellFormed(tree.value[o])
      ensures Valid() && rootOffset == 0
      ensures dataFile == if data.Some? then data.value else []
      ensures treeFile == if tree.Some? then tree.value else map[0 := EmptyLeaf]
    {
      rootOffset := 0;
      dataFile := if data.Some? then data.value else [];
      treeFile := if tree.Some? then tree.value else map[0 := EmptyLeaf];
    }

    /** `contacts_append(data, name)`: the record added at the end, and its offset returned. */
    method ContactsAppend(name: seq<char>) returns (offset: int)
      requires CStr.NoNul(name)
      modifies this
      ensures offset == |old(dataFile)| && dataFile == old(dataFile) + Record(name)
      ensures treeFile == old(treeFile) && rootOffset == old(rootOffset)
    {
      offset := |dataFile|;
      var len := U8(|name|);
      if len > MaxNameLen - 1 {
        len := MaxNameLen - 1;
      }
      dataFile := dataFile + [len as char];
      dataFile := dataFile + name[..len];
    }

    /** `bptree_load_page(tree, offset, state)`: the records of the leaf's first keys, at most
      * 8, and the offset of the next leaf. */
    method LoadPage(offset: int) returns (visible: seq<Option<seq<char>>>, next: int)
      requires Valid() && offset in treeFile
      ensures var n := treeFile[offset];
        |visible| == (if n.keyCount < VisibleCount then n.keyCount else VisibleCount) && next == n.next
      ensures forall k :: 0 <= k < |visible| ==> visible[k] == ReadRecord(dataFile, treeFile[offset].children[k])
    {
      var leaf := treeFile[offset];
      visible := [];
      var i := 0;
      while i < leaf.keyCount && |visible| < VisibleCount
        invariant 0 <= i <= leaf.keyCount && |visible| == i
        invariant forall k :: 0 <= k < i ==> visible[k] == ReadRecord(dataFile, leaf.children[k])
      {
        visible := visible + [ReadRecord(dataFile, leaf.children[i])];
        i := i + 1;
      }
      next := leaf.next;
    }

    /** `bptree_search_leaf(tree, data, offset, name)`. */
    method SearchLeaf(offset: int, name: seq<char>) returns (child: int)
      requires Valid() && offset in treeFile
      ensures child == SearchResult(treeFile[offset], name)
    {
      var leaf := treeFile[offset];
      var i := 0;
      while i < leaf.keyCount
        invariant 0 <= i <= leaf.keyCount
        invariant FindKey(leaf.keys, 0, leaf.keyCount, name) == FindKey(leaf.keys, i, leaf.keyCount, name)
      {
        if StrNCmp(leaf.keys[i], name, MaxKeyLen) == 0 {
          return leaf.children[i];
        }
        i := i + 1;
      }
      child := 0;
    }

    /** `bptree_insert_leaf(tree, offset, name)`: a full leaf is refused and nothing is written;
      * otherwise the name is appended to the data file and its key inserted in order, with the
      * record's offset as its child. */
    method InsertLeaf(offset: int, name: seq<char>) returns (ok: bool)
      requires Valid() && offset in treeFile && CStr.NoNul(name)
      modifies this
      ensures Valid() && rootOffset == old(rootOffset)
      ensures ok <==> old(treeFile[offset]).keyCount < MaxKeys
      ensures !ok ==> dataFile == old(dataFile) && treeFile == old(treeFile)
      ensures ok ==> dataFile == old(dataFile) + Record(name)
      ensures ok ==> treeFile == old(treeFile)[offset := Inserted(old(treeFile[offset]), KeyOf(name), |old(dataFile)|)]
    {
      var leaf := treeFile[offset];
      if leaf.keyCount >= MaxKeys {
        return false;
      }
      var key := KeyOf(name);
      var dataOffset := ContactsAppend(name);
      leaf := ShiftIn(leaf, key, dataOffset);
      InsertKeepsWellFormed(treeFile[offset], key, dataOffset);
      treeFile := treeFile[offset := leaf];
      ok := true;
    }
  }
}
