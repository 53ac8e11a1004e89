/** The chained hash map with intrusive entries (hashmap.c): an array of circular lists that are initialised
    when first used, and that is rebuilt with twice as many buckets when it becomes too full. */
module HashMaps {
  import opened Lists
  import opened Sequences

  /** A bucket is not initialised and empty, or a circle through its head. */
  ghost predicate BucketOk<K(0)>(head: Node<K>, s: seq<Node<K>>)
    reads head, s
  {
    (head.next == null && s == []) || Circle([head] + s)
  }

  /** So many entries are too many for so many buckets. */
  predicate TooFull(size: nat, bucketCount: nat)
    requires bucketCount > 0
  {
    size * 100 / bucketCount >= 80
  }

  lemma {:induction false} TooFullMeans(size: nat, n: nat)
    requires n > 0
    ensures TooFull(size, n) <==> size * 100 >= 80 * n
  {
    DividesBy(size * 100, n);
  }

  lemma {:induction false} DividesBy(a: nat, n: nat)
    requires n > 0
    ensures a / n >= 80 <==> a >= 80 * n
  {
    var q := a / n;
    assert a == q * n + a % n;
    if q >= 80 {
      assert (q - 80) * n >= 0;
    } else {
      assert (79 - q) * n >= 0;
    }
  }

  /** Twice as many buckets are enough for one entry more. */
  lemma {:induction false} DoublingHelps(size: nat, bucketCount: nat)
    requires bucketCount > 0 && !TooFull(size, bucketCount)
    ensures !TooFull(size + 1, bucketCount * 2)
  {
    hide TooFull;
    TooFullMeans(size, bucketCount);
    TooFullMeans(size + 1, bucketCount * 2);
  }

  /** Fewer entries are never too many where more are not. */
  lemma {:induction false} FewerIsFine(size: nat, size': nat, bucketCount: nat)
    requires bucketCount > 0 && size <= size' && !TooFull(size', bucketCount)
    ensures !TooFull(size, bucketCount)
  {
    hide TooFull;
    TooFullMeans(size, bucketCount);
    TooFullMeans(size', bucketCount);
  }

  lemma {:induction false} BucketParts<K(0)>(head: Node<K>, s: seq<Node<K>>)
    requires BucketOk(head, s)
    ensures if head.next == null then s == [] else Circle([head] + s)
  {
    if Circle([head] + s) {
      assert LinkedAt([head] + s, 0);
    }
  }

  lemma {:induction false} HeadAlone<K(0)>(head: Node<K>)
    requires Circle([head])
    ensures Circle([head] + [])
  {
    assert [head] + [] == [head];
  }

  lemma {:induction false} CircleIsBucket<K(0)>(head: Node<K>, s: seq<Node<K>>)
    requires Circle([head] + s)
    ensures BucketOk(head, s)
  {
  }

  lemma {:induction false} CircleDistinct<K(0)>(head: Node<K>, s: seq<Node<K>>)
    requires Circle([head] + s)
    ensures Distinct(s) && head !in s
  {
    var c := [head] + s;
    assert forall i :: 0 <= i < |s| ==> s[i] == c[i+1];
    assert c[0] == head;
  }

  /** Where the links of a bucket lead. */
  lemma {:induction false} LinksOf<K(0)>(head: Node<K>, s: seq<Node<K>>)
    requires Circle([head] + s)
    ensures head.next == (if s == [] then head else s[0]) && head.prev == (if s == [] then head else s[|s|-1])
    ensures forall j :: 0 <= j < |s| ==> s[j] != head && s[j].next == (if j == |s| - 1 then head else s[j+1])
    ensures forall j :: 0 <= j < |s| ==> s[j].prev == (if j == 0 then head else s[j-1])
  {
    var c := [head] + s;
    assert LinkedAt(c, 0);
    forall j | 0 <= j < |s|
      ensures s[j] != head && s[j].next == (if j == |s| - 1 then head else s[j+1]) && s[j].prev == (if j == 0 then head else s[j-1])
    {
      assert LinkedAt(c, j + 1) && c[j+1] == s[j] && c[0] == head;
    }
  }

  ghost predicate LeadsOn<K(0)>(head: Node<K>, l: seq<Node<K>>, k: int)
    requires 0 <= k < |l|
    reads l[k]
  {
    l[k].next == if k == |l| - 1 then head else l[k+1]
  }

  lemma {:induction false} LeadsTo<K(0)>(head: Node<K>, l: seq<Node<K>>, k: nat)
    requires k < |l| && LeadsOn(head, l, k)
    ensures l[k].next == if k == |l| - 1 then head else l[k+1]
  {
  }

  lemma {:induction false} AllLeadOn<K(0)>(head: Node<K>, l: seq<Node<K>>)
    requires Circle([head] + l)
    ensures forall k :: 0 <= k < |l| ==> LeadsOn(head, l, k)
  {
    LinksOf(head, l);
  }

  lemma {:induction false} NoElems<T>(l: seq<T>)
    requires l == []
    ensures Elems(l) == {}
  {
  }

  lemma {:induction false} HeadsAdded<K(0)>(nodes: set<Node<K>>, m: map<K, Node<K>>, key: K, e: Node<K>)
    requires key !in m
    ensures nodes + {e} - m[key := e].Values <= nodes - m.Values
  {
    var m' := m[key := e];
    assert m'[key] == e && forall k :: k in m ==> m'[k] == m[k];
    assert m.Values <= m'.Values;
  }

  lemma {:induction false} HeadsDropped<K(0)>(nodes: set<Node<K>>, m: map<K, Node<K>>, key: K)
    requires key in m && forall k :: k in m && m[k] == m[key] ==> k == key
    ensures nodes - {m[key]} - (m - {key}).Values <= nodes - m.Values
  {
    var m' := m - {key};
    assert forall k :: k in m && k != key ==> m'[k] == m[k];
    assert m.Values <= m'.Values + {m[key]};
  }

  // ---------------------------------------------------------------- sequences of operations

  datatype Op<!K(0)> = Put(key: K, node: Node<K>) | Drop(key: K) | Look(key: K)

  /** What an operation makes of the finite map. */
  ghost function Applied<K(0)>(m: map<K, Node<K>>, op: Op<K>): map<K, Node<K>> {
    match op
    case Put(key, node) => m[key := node]
    case Drop(key) => m - {key}
    case Look(_) => m
  }

  ghost function AllApplied<K(0)>(m: map<K, Node<K>>, ops: seq<Op<K>>): map<K, Node<K>>
    decreases |ops|
  {
    if ops == [] then m else Applied(AllApplied(m, ops[..|ops|-1]), ops[|ops|-1])
  }

  ghost function Answer<K(0)>(m: map<K, Node<K>>, op: Op<K>): Node?<K> {
    if op.Look? && op.key in m then m[op.key] else null
  }

  /** A node is entered that is not in the map, or stands for the key already. */
  ghost predicate Permitted<K(0)>(m: map<K, Node<K>>, op: Op<K>) {
    op.Put? && op.node in m.Values ==> op.key in m && m[op.key] == op.node
  }

  ghost predicate AllPermitted<K(0)>(m: map<K, Node<K>>, ops: seq<Op<K>>)
    decreases |ops|
  {
    ops == [] || (Permitted(m, ops[0]) && AllPermitted(Applied(m, ops[0]), ops[1..]))
  }

  /** The answers on the way. */
  ghost function Answers<K(0)>(m: map<K, Node<K>>, ops: seq<Op<K>>): (r: seq<Node?<K>>)
    decreases |ops|
  {
    if ops == [] then [] else
      var before := ops[..|ops|-1];
      Answers(m, before) + [Answer(AllApplied(m, before), ops[|ops|-1])]
  }

  /** Each lookup is answered by what the operations before it have made of the map. */
  lemma {:induction false} AnswerAt<K(0)>(m: map<K, Node<K>>, ops: seq<Op<K>>, i: nat)
    requires i < |ops|
    ensures |Answers(m, ops)| == |ops| && Answers(m, ops)[i] == Answer(AllApplied(m, ops[..i]), ops[i])
    decreases |ops|
  {
    var before := ops[..|ops|-1];
    if i < |before| {
      AnswerAt(m, before, i);
      assert before[..i] == ops[..i];
    } else if before != [] {
      AnswerAt(m, before, 0);
    }
  }

  lemma {:induction false} NothingApplied<K(0)>(m: map<K, Node<K>>)
    ensures AllApplied(m, []) == m && Answers(m, []) == []
  {
  }

  lemma {:induction false} NextOp<K(0)>(was: map<K, Node<K>>, now: map<K, Node<K>>, ops: seq<Op<K>>, i: nat)
    requires i < |ops| && now == AllApplied(was, ops[..i]) && AllPermitted(now, ops[i..])
    ensures Permitted(now, ops[i]) && AllPermitted(Applied(now, ops[i]), ops[i+1..])
    ensures AllApplied(was, ops[..i+1]) == Applied(now, ops[i])
    ensures Answers(was, ops[..i+1]) == Answers(was, ops[..i]) + [Answer(now, ops[i])]
    ensures PutNodes([ops[i]]) <= PutNodes(ops) && (ops[i].Put? ==> ops[i].node in PutNodes(ops))
  {
    assert ops[i..][0] == ops[i] && ops[i..][1..] == ops[i+1..];
    assert ops[..i+1][..i] == ops[..i];
    OnePut(ops, i);
  }

  ghost function PutNodes<K(0)>(ops: seq<Op<K>>): set<Node<K>> {
    set i | 0 <= i < |ops| && ops[i].Put? :: ops[i].node
  }

  lemma {:induction false} OnePut<K(0)>(ops: seq<Op<K>>, i: nat)
    requires i < |ops|
    ensures PutNodes([ops[i]]) <= PutNodes(ops)
    ensures ops[i].Put? ==> ops[i].node in PutNodes(ops)
  {
  }

  class HashMap<K(0, ==)> {
    var buckets: array<Node<K>>
    var bucketCount: nat
    var size: nat
    const hash: K -> nat
    ghost var lists: seq<seq<Node<K>>>      // the entries of each bucket, in the order of its list
    ghost var owner: map<Node<K>, nat>      // the bucket of every head and entry
    ghost var contents: map<K, Node<K>>     // the finite map that is represented

    ghost predicate CellAt(i: nat)
      reads this`buckets, this`lists, this`owner, buckets, owner.Keys
    {
      && i < buckets.Length && i < |lists|
      && buckets[i] in owner && owner[buckets[i]] == i
      && (forall k :: 0 <= k < |lists[i]| ==> lists[i][k] in owner && owner[lists[i][k]] == i)
      && BucketOk(buckets[i], lists[i])
    }

    ghost predicate Shape()
      reads this`buckets, this`lists, this`owner, this`bucketCount, buckets, owner.Keys
    {
      && buckets.Length == bucketCount == |lists| && bucketCount > 0
      && forall i: nat :: i < bucketCount ==> CellAt(i)
    }

    /** An entry sits in the bucket its hash prescribes and is what its key stands for. */
    ghost predicate EntryAt(i: nat, k: nat)
      requires bucketCount > 0 && i < |lists| && k < |lists[i]|
      reads this`lists, this`owner, this`contents, this`bucketCount, owner.Keys
    {
      var e := lists[i][k];
      e in owner && e.key in contents && contents[e.key] == e && hash(e.key) % bucketCount == i
    }

    ghost predicate KeyAt(key: K)
      requires bucketCount == |lists| && bucketCount > 0 && key in contents
      reads this`lists, this`owner, this`contents, this`bucketCount, owner.Keys
    {
      contents[key] in owner && contents[key] in lists[hash(key) % bucketCount] && contents[key].key == key
    }

    /** The lists hold exactly the entries of the map. */
    ghost predicate Refines()
      reads this`lists, this`owner, this`contents, this`bucketCount, owner.Keys
    {
      && bucketCount == |lists| && bucketCount > 0
      && (forall i: nat, k: nat :: i < |lists| && k < |lists[i]| ==> EntryAt(i, k))
      && (forall key :: key in contents ==> KeyAt(key))
    }

    ghost predicate Valid()
      reads this, buckets, owner.Keys
    {
      Shape() && Refines() && size == |contents| && !TooFull(size, bucketCount)
    }

    /** The nodes of the table that are no entries. */
    ghost function Heads(): set<Node<K>>
      reads this`owner, this`contents
    {
      owner.Keys - contents.Values
    }

    /** hashmap_inits. */
    constructor (hash: K -> nat, bucketCount: nat)
      requires bucketCount > 0
      ensures Valid() && contents == map[] && this.hash == hash && this.bucketCount == bucketCount
      ensures fresh(buckets) && fresh(owner.Keys)
    {
      this.hash, this.bucketCount, size := hash, bucketCount, 0;
      contents := map[];
      new;
      hide TooFull, CellAt;
      MakeBuckets(bucketCount);
      TooFullMeans(0, bucketCount);
    }

    /** A zeroed array of heads. */
    method MakeBuckets(n: nat)
      requires n > 0
      modifies this`buckets, this`lists, this`owner
      ensures fresh(buckets) && buckets.Length == n == |lists| && forall i: nat :: i < n ==> CellAt(i) && lists[i] == []
      ensures fresh(owner.Keys)
    {
      var dummy := new Node<K>();
      buckets := new Node<K>[n](_ => dummy);
      lists, owner := [], map[];
      for i := 0 to n
        invariant fresh(buckets) && buckets.Length == n && |lists| == i && fresh(owner.Keys)
        invariant forall j: nat :: j < i ==>
          lists[j] == [] && buckets[j] in owner && owner[buckets[j]] == j && buckets[j].next == null
      {
        var h := new Node<K>();
        buckets[i] := h;
        lists := lists + [[]];
        owner := owner[h := i];
      }
    }

    function Bucket(key: K): (i: nat)
      requires bucketCount > 0
      reads this`bucketCount
      ensures i < bucketCount
    {
      hash(key) % bucketCount
    }

    /** The entry with a key, if its bucket has one. */
    method FindInBucket(i: nat, key: K) returns (e: Node?<K>)
      requires Shape() && Refines() && i == Bucket(key)
      ensures e == if key in contents then contents[key] else null
    {
      hide BucketOk, Circle;
      var head := buckets[i];
      assert CellAt(i);
      assert key in contents ==> KeyAt(key);
      ghost var s, j: nat := lists[i], 0;
      BucketParts(head, s);
      if head.next == null {
        return null;
      }
      LinksOf(head, s);
      var c := head.next;
      while c != head
        invariant j <= |s| && (if j < |s| then c == s[j] else c == head)
        invariant forall k :: 0 <= k < j ==> s[k].key != key
        decreases |s| - j
      {
        assert EntryAt(i, j);
        if c.key == key {
          return c;
        }
        assert s[j].next == (if j == |s| - 1 then head else s[j+1]);
        c := c.next;
        j := j + 1;
      }
      e := null;
    }

    method Get(key: K) returns (e: Node?<K>)
      requires Valid()
      ensures e == if key in contents then contents[key] else null
    {
      e := FindInBucket(hash(key) % bucketCount, key);
    }

    /** Links a node behind the last entry of its bucket. */
    method LinkInto(i: nat, e: Node<K>)
      requires Shape() && i < bucketCount && e !in owner
      modifies this`lists, this`owner, owner.Keys`next, owner.Keys`prev, e`next, e`prev
      ensures Shape() && lists == old(lists)[i := old(lists)[i] + [e]] && owner == old(owner)[e := i]
    {
      hide BucketOk, Circle;
      var head := buckets[i];
      assert CellAt(i);
      BucketParts(head, lists[i]);
      if head.next == null {
        Init(head);
        HeadAlone(head);
      }
      LinksOf(head, lists[i]);
      Add(head, e, lists[i]);
      CircleIsBucket(head, lists[i] + [e]);
      lists := lists[i := lists[i] + [e]];
      owner := owner[e := i];
      forall j: nat | j < bucketCount
        ensures CellAt(j)
      {
        assert old(CellAt(j));
      }
    }

    /** Takes the k-th entry of bucket i out of its list. */
    method Unlink(e: Node<K>, ghost i: nat, ghost k: nat)
      requires Shape() && i < bucketCount && k < |lists[i]| && lists[i][k] == e
      modifies this`lists, this`owner, owner.Keys`next, owner.Keys`prev
      ensures Shape() && lists == old(lists)[i := old(lists)[i][..k] + old(lists)[i][k+1..]] && owner == old(owner) - {e}
    {
      hide BucketOk, Circle;
      ghost var head, s := buckets[i], lists[i];
      assert CellAt(i);
      BucketParts(head, s);
      LinksOf(head, s);
      assert s[k].next == (if k == |s| - 1 then head else s[k+1]) && s[k].prev == (if k == 0 then head else s[k-1]);
      CutIs(head, s, k);
      Deattach(e, [head] + s, k + 1);
      CircleIsBucket(head, s[..k] + s[k+1..]);
      assert e !in s[..k] + s[k+1..] by { CutWithout(head, s, k); }
      lists := lists[i := s[..k] + s[k+1..]];
      owner := owner - {e};
      forall j: nat | j < bucketCount
        ensures CellAt(j)
      {
        assert old(CellAt(j));
      }
    }

    /** Every entry of a bucket sits there for its hash, and under its key in the map. */
    lemma BucketEntries(i: nat)
      requires Shape() && Refines() && i < bucketCount
      ensures forall k :: 0 <= k < |lists[i]| ==> lists[i][k].key in contents && contents[lists[i][k].key] == lists[i][k]
    {
      forall k: nat | k < |lists[i]|
        ensures lists[i][k].key in contents && contents[lists[i][k].key] == lists[i][k]
      {
        assert EntryAt(i, k);
      }
    }

    /** A node with a new key becomes an entry. */
    method AddEntry(e: Node<K>)
      requires Shape() && Refines() && e !in owner && e.key !in contents
      modifies this`lists, this`owner, this`contents, owner.Keys`next, owner.Keys`prev, e`next, e`prev
      ensures Shape() && Refines() && contents == old(contents)[e.key := e] && owner.Keys == old(owner.Keys) + {e}
    {
      hide CellAt;
      var i := hash(e.key) % bucketCount;
      LinkInto(i, e);
      contents := contents[e.key := e];
      forall j: nat, k: nat | j < |lists| && k < |lists[j]|
        ensures EntryAt(j, k)
      {
        if j != i || k < |lists[j]| - 1 {
          assert lists[j][k] == old(lists)[j][k] && old(EntryAt(j, k));
        }
      }
      forall key | key in contents
        ensures KeyAt(key)
      {
        if key == e.key {
          assert lists[i][|lists[i]|-1] == e;
        } else {
          assert old(KeyAt(key));
        }
      }
    }

    /** The entry of a key is no entry any more. */
    method RemoveEntry(e: Node<K>)
      requires Shape() && Refines() && e.key in contents && contents[e.key] == e
      modifies this`lists, this`owner, this`contents, owner.Keys`next, owner.Keys`prev
      ensures Shape() && Refines() && contents == old(contents) - {e.key} && owner == old(owner) - {e}
    {
      hide Shape;
      BucketCountPositive();
      ghost var i := Bucket(e.key);
      assert KeyAt(e.key);
      ghost var k :| 0 <= k < |lists[i]| && lists[i][k] == e;
      Unlink(e, i, k);
      EntriesOwned();
      contents := contents - {e.key};
      forall j: nat, m: nat | j < |lists| && m < |lists[j]|
        ensures EntryAt(j, m)
      {
        var m' := if j != i || m < k then m else m + 1;
        assert lists[j][m] == old(lists)[j][m'] && old(EntryAt(j, m'));
        assert lists[j][m] in owner && lists[j][m] != e;
      }
      forall key | key in contents
        ensures KeyAt(key)
      {
        assert old(KeyAt(key));
        StillIn(old(lists)[i], k, contents[key]);
      }
    }

    lemma EntriesOwned()
      requires Shape()
      ensures forall j: nat, m: nat :: j < |lists| && m < |lists[j]| ==> lists[j][m] in owner
    {
      forall j: nat, m: nat | j < |lists| && m < |lists[j]|
        ensures lists[j][m] in owner
      {
        assert CellAt(j);
      }
    }

    /** Drops the entry that has the key, if there is one. */
    method DropEntry(key: K)
      requires Shape() && Refines() && size == |contents|
      modifies this`size, this`lists, this`owner, this`contents, owner.Keys`next, owner.Keys`prev
      ensures Shape() && Refines() && contents == old(contents) - {key} && size == |contents|
      ensures size <= old(size) && owner.Keys <= old(owner.Keys) && (key in old(contents) ==> size == old(size) - 1)
      ensures key in old(contents) ==> old(contents)[key] !in owner
      ensures Heads() <= old(Heads())
    {
      hide Shape, Refines;
      BucketCountPositive();
      var e := FindInBucket(hash(key) % bucketCount, key);
      if e != null {
        EntryKey(key);
        OneLess(contents, key);
        AllKeys();
        HeadsDropped(owner.Keys, contents, key);
        RemoveEntry(e);
        size := size - 1;
      } else {
        NothingRemoved(contents, key);
      }
    }

    method Remove(key: K)
      requires Valid()
      modifies this`size, this`lists, this`owner, this`contents, owner.Keys`next, owner.Keys`prev
      ensures Valid() && contents == old(contents) - {key} && owner.Keys <= old(owner.Keys) && Heads() <= old(Heads())
    {
      hide Shape, Refines, TooFull;
      BucketCountPositive();
      DropEntry(key);
      FewerIsFine(size, old(size), bucketCount);
    }

    ghost predicate Stands(key: K, e: Node<K>)
      reads this`contents
    {
      key in contents && contents[key] == e
    }

    /** Enters a node under a key; an entry that had the key is dropped. */
    method SetEntry(key: K, entry: Node<K>)
      requires Shape() && Refines() && size == |contents| && (entry !in owner || Stands(key, entry))
      modifies this`size, this`lists, this`owner, this`contents, owner.Keys`next, owner.Keys`prev, entry
      ensures Shape() && Refines() && contents == old(contents)[key := entry] && entry.key == key
      ensures size == |contents| && size <= old(size) + 1 && owner.Keys <= old(owner.Keys) + {entry}
      ensures Heads() <= old(Heads())
    {
      hide Shape, Refines;
      DropEntry(key);
      entry.key := key;
      HeadsAdded(owner.Keys, contents, key, entry);
      AddEntry(entry);
      size := size + 1;
      Overwritten(old(contents), key, entry);
    }

    /** Enters a node under a key and rebuilds a table that became too full. The node is a new one, or the one that
        stands for the key already. */
    method Set(key: K, entry: Node<K>)
      requires Valid() && (entry !in owner || Stands(key, entry))
      modifies this`size, this`lists, this`owner, this`contents, this`buckets, this`bucketCount
      modifies owner.Keys`next, owner.Keys`prev, entry
      ensures Valid() && contents == old(contents)[key := entry] && entry.key == key
      ensures forall x :: x in owner ==> x in old(owner) || x == entry || fresh(x)
      ensures forall x :: x in Heads() ==> x in old(Heads()) || fresh(x)
    {
      hide Shape, Refines, TooFull;
      SetEntry(key, entry);
      BucketCountPositive();
      if TooFull(size, bucketCount) {
        DoublingHelps(old(size), bucketCount);
        FewerIsFine(size, old(size) + 1, bucketCount * 2);
        Rehash();
      }
    }

    /** The map as a set of keys: a key that is not there gets an entry of its own. */
    method Insert(key: K) returns (added: bool)
      requires Valid()
      modifies this`size, this`lists, this`owner, this`contents, this`buckets, this`bucketCount
      modifies owner.Keys`next, owner.Keys`prev
      ensures Valid() && contents.Keys == old(contents.Keys) + {key} && (added <==> key !in old(contents))
      ensures forall k :: k in old(contents) ==> contents[k] == old(contents)[k]
      ensures forall x :: x in owner ==> x in old(owner) || fresh(x)
      ensures forall x :: x in Heads() ==> x in old(Heads()) || fresh(x)
    {
      hide Shape, Refines;
      var e := Get(key);
      added := e == null;
      if added {
        var entry := new Node<K>();
        Set(key, entry);
      }
    }

    method Exists(key: K) returns (b: bool)
      requires Valid()
      ensures b <==> key in contents
    {
      var e := Get(key);
      b := e != null;
    }

    /** One operation; a lookup has an answer. */
    method Perform(op: Op<K>) returns (answer: Node?<K>)
      requires Valid() && Permitted(contents, op) && (op.Put? ==> op.node !in Heads())
      modifies this`size, this`lists, this`owner, this`contents, this`buckets, this`bucketCount
      modifies owner.Keys`next, owner.Keys`prev, PutNodes([op])
      ensures Valid() && contents == Applied(old(contents), op) && answer == Answer(old(contents), op)
      ensures forall x :: x in owner ==> x in old(owner) || x in PutNodes([op]) || fresh(x)
      ensures forall x :: x in Heads() ==> x in old(Heads()) || fresh(x)
    {
      hide Shape, Refines, TooFull;
      answer := null;
      match op
      case Put(key, node) =>
        assert [op][0] == op;
        NotOwned(node, key);
        Set(key, node);
      case Drop(key) =>
        Remove(key);
      case Look(key) =>
        answer := Get(key);
    }

    lemma NotOwned(node: Node<K>, key: K)
      requires node !in Heads() && (node in contents.Values ==> Stands(key, node))
      ensures node !in owner || Stands(key, node)
    {
    }

    /** Any sequence of operations: the map ends as the finite map does, and every lookup on the way has the answer
        that the finite map gives at that point. */
    method PerformAll(ops: seq<Op<K>>) returns (answers: seq<Node?<K>>)
      requires Valid() && AllPermitted(contents, ops) && PutNodes(ops) !! Heads()
      modifies this`size, this`lists, this`owner, this`contents, this`buckets, this`bucketCount
      modifies owner.Keys`next, owner.Keys`prev, PutNodes(ops)
      ensures Valid() && contents == AllApplied(old(contents), ops)
      ensures answers == Answers(old(contents), ops)
      ensures forall x :: x in owner ==> x in old(owner) || x in PutNodes(ops) || fresh(x)
      ensures forall x :: x in Heads() ==> x in old(Heads()) || fresh(x)
    {
      hide *;
      ghost var was := contents;
      answers := [];
      NothingApplied(was);
      assert ops[..0] == [] && ops[0..] == ops;
      for i := 0 to |ops|
        invariant Valid() && contents == AllApplied(was, ops[..i]) && answers == Answers(was, ops[..i])
        invariant AllPermitted(contents, ops[i..])
        invariant forall x :: x in Heads() ==> x in old(Heads()) || fresh(x)
        invariant forall x :: x in owner ==> x in old(owner) || x in PutNodes(ops) || fresh(x)
      {
        NextOp(was, contents, ops, i);
        var a := Perform(ops[i]);
        answers := answers + [a];
      }
      assert ops[..|ops|] == ops;
    }

    /** A node of the old table that has not been moved yet. */
    ghost predicate Waiting(n: Node<K>, was: map<K, Node<K>>)
      reads this`owner, this`contents, n
    {
      n !in owner && n.key !in contents && n.key in was && was[n.key] == n
    }

    /** While the table is rebuilt: what has been moved is in the new table, the rest is waiting. */
    ghost predicate Rebuilding(was: map<K, Node<K>>, waiting: set<Node<K>>)
      reads this`owner, this`contents, waiting
    {
      && (forall n :: n in waiting ==> Waiting(n, was))
      && (forall key :: key in contents ==> key in was && contents[key] == was[key])
      && (forall key :: key in was ==> key in contents || (was[key] in waiting && was[key].key == key))
    }

    /** Moves one waiting node. */
    method Move(n: Node<K>, ghost was: map<K, Node<K>>, ghost waiting: set<Node<K>>)
      requires Shape() && Refines() && Rebuilding(was, waiting) && n in waiting
      modifies this`lists, this`owner, this`contents, owner.Keys`next, owner.Keys`prev, n`next, n`prev
      ensures Shape() && Refines() && Rebuilding(was, waiting - {n}) && owner.Keys == old(owner.Keys) + {n}
    {
      hide Shape, Refines;
      assert Waiting(n, was);
      AddEntry(n);
      forall x | x in waiting - {n}
        ensures Waiting(x, was)
      {
        assert old(Waiting(x, was));
      }
    }

    lemma WaitingOutside(was: map<K, Node<K>>, waiting: set<Node<K>>)
      requires Rebuilding(was, waiting)
      ensures forall n :: n in waiting ==> n !in owner
    {
      assert forall n :: n in waiting ==> Waiting(n, was);
    }

    /** A bucket of the old table whose entries all wait. */
    ghost predicate AheadAt(head: Node<K>, l: seq<Node<K>>, waiting: set<Node<K>>)
      reads this`owner, head, waiting
    {
      head !in owner && head !in waiting && (forall x :: x in l ==> x in waiting) && BucketOk(head, l)
    }

    /** Moves the entries of one old bucket; the next link is read before a node is moved. */
    method MoveBucket(head: Node<K>, ghost l: seq<Node<K>>, ghost was: map<K, Node<K>>, ghost waiting: set<Node<K>>)
      requires Shape() && Refines() && Rebuilding(was, waiting) && AheadAt(head, l, waiting)
      modifies this`lists, this`owner, this`contents, owner.Keys`next, owner.Keys`prev, l`next, l`prev
      ensures Shape() && Refines() && Rebuilding(was, waiting - Elems(l)) && owner.Keys == old(owner.Keys) + Elems(l)
    {
      hide Shape, Refines, Rebuilding, BucketOk, Circle, Elems, LeadsOn;
      BucketParts(head, l);
      if head.next == null {
        NoElems(l);
        assert waiting - {} == waiting && owner.Keys + {} == owner.Keys;
        return;
      }
      CircleDistinct(head, l);
      LinksOf(head, l);
      WaitingOutside(was, waiting);
      AllLeadOn(head, l);
      var c := head.next;
      ghost var j: nat := 0;
      NoElems(l[..0]);
      assert waiting - {} == waiting && owner.Keys + {} == owner.Keys;
      while c != head
        invariant j <= |l| && if j < |l| then c == l[j] else c == head
        invariant forall k :: j <= k < |l| ==> LeadsOn(head, l, k) && l[k] !in owner
        invariant Shape() && Refines() && Rebuilding(was, waiting - Elems(l[..j]))
        invariant owner.Keys == old(owner.Keys) + Elems(l[..j])
        decreases |l| - j
      {
        var next := c.next;
        LeadsTo(head, l, j);
        NextElem(l, j, waiting);
        Move(c, was, waiting - Elems(l[..j]));
        c := next;
        j := j + 1;
      }
      assert l[..j] == l;
    }

    /** The old buckets from number i on are still to be moved, and nothing else waits. */
    ghost predicate AheadFrom(heads: seq<Node<K>>, olds: seq<seq<Node<K>>>, waiting: set<Node<K>>, i: nat)
      reads this`owner, heads, waiting
    {
      && |heads| == |olds|
      && (forall a :: i <= a < |heads| ==> AheadAt(heads[a], olds[a], waiting))
      && (forall a, b :: i <= a < b < |heads| ==> Elems(olds[a]) !! Elems(olds[b]))
      && (forall x :: x in waiting ==> exists a :: i <= a < |heads| && x in olds[a])
    }

    /** The table before the rebuild. */
    lemma AllAhead()
      requires Shape() && Refines()
      ensures forall a :: 0 <= a < bucketCount ==>
        buckets[a] !in contents.Values && Elems(lists[a]) <= contents.Values && BucketOk(buckets[a], lists[a])
      ensures forall a, b :: 0 <= a < b < bucketCount ==> Elems(lists[a]) !! Elems(lists[b])
      ensures forall x :: x in contents.Values ==> exists a :: 0 <= a < bucketCount && x in lists[a]
      ensures contents.Values <= owner.Keys
    {
      forall x | x in contents.Values
        ensures x in owner && exists a :: 0 <= a < bucketCount && x in lists[a]
      {
        var key :| key in contents && contents[key] == x;
        assert KeyAt(key) && x in lists[Bucket(key)];
      }
      forall a: nat | a < bucketCount
        ensures buckets[a] !in contents.Values && Elems(lists[a]) <= contents.Values && BucketOk(buckets[a], lists[a])
      {
        assert CellAt(a);
        BucketEntries(a);
        HeadIsNoEntry(a);
      }
      forall a: nat, b: nat | a < b < bucketCount
        ensures Elems(lists[a]) !! Elems(lists[b])
      {
        assert CellAt(a) && CellAt(b);
      }
    }

    lemma HeadIsNoEntry(a: nat)
      requires Shape() && Refines() && a < bucketCount
      ensures buckets[a] !in contents.Values
    {
      assert CellAt(a);
      if buckets[a] in contents.Values {
        var key :| key in contents && contents[key] == buckets[a];
        assert KeyAt(key) && CellAt(Bucket(key));
        BucketParts(buckets[a], lists[a]);
        if lists[a] != [] {
          CircleDistinct(buckets[a], lists[a]);
        }
      }
    }

    /** Moves old bucket i; the later ones stay as they are. */
    method MoveNext(head: Node<K>, ghost heads: seq<Node<K>>, ghost olds: seq<seq<Node<K>>>, ghost i: nat,
                    ghost was: map<K, Node<K>>, ghost waiting: set<Node<K>>)
      requires Shape() && Refines() && Rebuilding(was, waiting) && AheadFrom(heads, olds, waiting, i)
      requires i < |heads| && head == heads[i]
      modifies this`lists, this`owner, this`contents, owner.Keys`next, owner.Keys`prev, olds[i]`next, olds[i]`prev
      ensures Shape() && Refines() && Rebuilding(was, waiting - Elems(olds[i]))
      ensures AheadFrom(heads, olds, waiting - Elems(olds[i]), i + 1) && owner.Keys == old(owner.Keys) + Elems(olds[i])
    {
      hide Shape, Refines, Rebuilding, BucketOk, Circle;
      assert AheadAt(heads[i], olds[i], waiting);
      WaitingOutside(was, waiting);
      MoveBucket(head, olds[i], was, waiting);
      ghost var left := waiting - Elems(olds[i]);
      forall a | i + 1 <= a < |heads|
        ensures AheadAt(heads[a], olds[a], left)
      {
        assert old(AheadAt(heads[a], olds[a], waiting));
        assert Elems(olds[i]) !! Elems(olds[a]);
        assert forall x :: x in olds[a] ==> x in Elems(olds[a]);
      }
      forall x | x in left
        ensures exists a :: i + 1 <= a < |heads| && x in olds[a]
      {
        var a :| i <= a < |heads| && x in olds[a];
        assert a != i;
      }
    }

    /** Sets up the new buckets: all entries wait in the old ones. */
    method StartRebuild() returns (oldBuckets: array<Node<K>>, ghost olds: seq<seq<Node<K>>>)
      requires Shape() && Refines()
      modifies this`buckets, this`bucketCount, this`lists, this`owner, this`contents
      ensures Shape() && Refines() && bucketCount == old(bucketCount) * 2 && contents == map[]
      ensures oldBuckets == old(buckets) && oldBuckets.Length == |olds| == old(bucketCount) && olds == old(lists)
      ensures Rebuilding(old(contents), old(contents).Values)
      ensures AheadFrom(oldBuckets[..], olds, old(contents).Values, 0)
      ensures fresh(owner.Keys) && fresh(buckets) && old(contents).Values <= old(owner.Keys)
    {
      hide CellAt, BucketOk, Refines, Rebuilding;
      AllAhead();
      AllKeys();
      ghost var was := contents;
      olds, oldBuckets := lists, buckets;
      BucketCountPositive();
      bucketCount := bucketCount * 2;
      MakeBuckets(bucketCount);
      contents := map[];
      NothingYet();
      StartsWaiting(was);
      ghost var heads := oldBuckets[..];
      forall a | 0 <= a < |heads|
        ensures AheadAt(heads[a], olds[a], was.Values)
      {
        assert forall x :: x in olds[a] ==> x in Elems(olds[a]);
      }
    }

    lemma AllKeys()
      requires Shape() && Refines()
      ensures forall key :: key in contents ==> contents[key].key == key && contents[key] in owner
    {
      forall key | key in contents
        ensures contents[key].key == key && contents[key] in owner
      {
        assert KeyAt(key);
      }
    }

    lemma StartsWaiting(was: map<K, Node<K>>)
      requires contents == map[] && forall key :: key in was ==> was[key].key == key && was[key] !in owner
      ensures Rebuilding(was, was.Values)
    {
    }

    lemma NothingYet()
      requires bucketCount == |lists| && bucketCount > 0 && contents == map[] && forall i :: 0 <= i < |lists| ==> lists[i] == []
      ensures Refines()
    {
    }

    /** Rebuilds the table with twice as many buckets. */
    method Rehash()
      requires Shape() && Refines()
      modifies this`buckets, this`bucketCount, this`lists, this`owner, this`contents, owner.Keys`next, owner.Keys`prev
      ensures Shape() && Refines() && contents == old(contents) && bucketCount == old(bucketCount) * 2
      ensures forall x :: x in owner ==> x in old(owner) || fresh(x)
      ensures forall x :: x in Heads() ==> x in old(Heads()) || fresh(x)
    {
      hide Shape, Refines, Rebuilding, AheadFrom;
      ghost var was := contents;
      var oldCount := bucketCount;
      ghost var olds;
      var oldBuckets;
      oldBuckets, olds := StartRebuild();
      ghost var heads, waiting := oldBuckets[..], was.Values;
      for i := 0 to oldCount
        invariant Shape() && Refines() && Rebuilding(was, waiting) && AheadFrom(heads, olds, waiting, i)
        invariant oldBuckets.Length == oldCount == |olds| && oldBuckets[..] == heads && waiting <= old(owner.Keys)
        invariant forall x :: x in owner ==> x in old(owner) || fresh(x)
        invariant bucketCount == old(bucketCount) * 2
      {
        AheadIn(heads, olds, waiting, i);
        MoveNext(oldBuckets[i], heads, olds, i, was, waiting);
        waiting := waiting - Elems(olds[i]);
      }
      NothingAhead(heads, olds, waiting);
      AllMoved(was);
    }

    lemma AheadIn(heads: seq<Node<K>>, olds: seq<seq<Node<K>>>, waiting: set<Node<K>>, i: nat)
      requires AheadFrom(heads, olds, waiting, i) && i < |heads|
      ensures i < |olds| && Elems(olds[i]) <= waiting && forall x :: x in olds[i] ==> x in waiting
    {
      assert AheadAt(heads[i], olds[i], waiting);
    }

    lemma NothingAhead(heads: seq<Node<K>>, olds: seq<seq<Node<K>>>, waiting: set<Node<K>>)
      requires AheadFrom(heads, olds, waiting, |heads|)
      ensures waiting == {}
    {
    }

    lemma AllMoved(was: map<K, Node<K>>)
      requires Rebuilding(was, {})
      ensures contents == was
    {
    }

    lemma BucketCountPositive()
      requires Shape()
      ensures bucketCount > 0 && bucketCount == |lists|
    {
    }

    lemma EntryKey(key: K)
      requires Shape() && Refines() && key in contents
      ensures contents[key].key == key && contents[key] in owner
    {
      assert KeyAt(key);
    }
  }

  lemma {:induction false} NextElem<T>(l: seq<T>, j: nat, w: set<T>)
    requires Distinct(l) && j < |l|
    ensures Elems(l[..j+1]) == Elems(l[..j]) + {l[j]}
    ensures w - Elems(l[..j]) - {l[j]} == w - Elems(l[..j+1])
    ensures l[j] in w ==> l[j] in w - Elems(l[..j])
    ensures forall k :: j < k < |l| ==> l[k] != l[j]
    ensures forall x :: x in Elems(l[..j]) ==> x in l
  {
    assert l[..j+1] == l[..j] + [l[j]];
    assert forall k :: 0 <= k < j ==> l[k] != l[j];
  }

  lemma {:induction false} StillIn<T>(s: seq<T>, k: nat, x: T)
    requires k < |s|
    ensures x in s && x != s[k] ==> x in s[..k] + s[k+1..]
  {
    if x in s && x != s[k] {
      var i :| 0 <= i < |s| && s[i] == x;
      if i < k {
        assert s[..k][i] == x;
      } else {
        assert s[k+1..][i-k-1] == x;
      }
    }
  }

  lemma {:induction false} NothingRemoved<K, V>(m: map<K, V>, k: K)
    requires k !in m
    ensures m - {k} == m
  {
  }

  lemma {:induction false} Overwritten<K, V>(m: map<K, V>, k: K, v: V)
    ensures (m - {k})[k := v] == m[k := v]
  {
  }

  lemma {:induction false} OneLess<K, V>(m: map<K, V>, k: K)
    requires k in m
    ensures |m - {k}| == |m| - 1
  {
    var r := m - {k};
    assert m == r[k := m[k]];
  }

  lemma {:induction false} CutIs<T>(head: T, s: seq<T>, k: nat)
    requires k < |s|
    ensures var c := [head] + s; c[k+1] == s[k] && c[..k+1] + c[k+2..] == [head] + (s[..k] + s[k+1..])
  {
  }

  lemma {:induction false} CutWithout<K(0)>(head: Node<K>, s: seq<Node<K>>, k: nat)
    requires k < |s| && Distinct([head] + s)
    ensures s[k] !in s[..k] + s[k+1..]
  {
    var c := [head] + s;
    assert forall i :: 0 <= i < |s| ==> s[i] == c[i+1];
  }
}
