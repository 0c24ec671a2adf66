/**
 * The provider registry: an insertion-ordered map from class name to the
 * provider constructed for it, filled once from the configured class names,
 * and a read-only iterator over it.
 */
module ProviderLoader {
  import opened Wrappers
  import opened JavaText

  /** The LinkedHashMap's entries in insertion order. */
  datatype Registry<P> = Registry(entries: seq<(String, P)>)

  predicate Valid<P>(r: Registry<P>)
  {
    forall i, j :: 0 <= i < j < |r.entries| ==> r.entries[i].0 != r.entries[j].0
  }

  function IndexOfKey<P>(entries: seq<(String, P)>, key: String): (r: int)
    ensures -1 <= r < |entries|
    ensures r >= 0 ==> entries[r].0 == key
    ensures r < 0 <==> forall i :: 0 <= i < |entries| ==> entries[i].0 != key
  {
    if |entries| == 0 then -1
    else if entries[|entries| - 1].0 == key then |entries| - 1
    else IndexOfKey(entries[..|entries| - 1], key)
  }

  /**
   * LinkedHashMap.put: a new key goes last; an existing key keeps its
   * position and takes the new value.
   */
  function Put<P>(r: Registry<P>, key: String, value: P): (q: Registry<P>)
    requires Valid(r)
    ensures Valid(q)
    ensures exists i :: 0 <= i < |q.entries| && q.entries[i] == (key, value)
    ensures IndexOfKey(r.entries, key) < 0 ==> q.entries == r.entries + [(key, value)]
    ensures IndexOfKey(r.entries, key) >= 0 ==>
              |q.entries| == |r.entries| && forall i :: 0 <= i < |r.entries| ==> q.entries[i].0 == r.entries[i].0
  {
    var k := IndexOfKey(r.entries, key);
    if k < 0 then
      var q := Registry(r.entries + [(key, value)]);
      assert q.entries[|r.entries|] == (key, value);
      q
    else
      var q := Registry(r.entries[k := (key, value)]);
      assert q.entries[k] == (key, value);
      q
  }

  /** The set of keys. */
  function KeySet<P>(r: Registry<P>): set<String>
  {
    set i | 0 <= i < |r.entries| :: r.entries[i].0
  }

  /**
   * ResourceProviderLoader.load: every configured class name whose class
   * can be constructed (`construct` yields Some) is put in order; names
   * whose construction throws are skipped.
   */
  function Load<P>(r: Registry<P>, names: seq<String>, construct: String -> Option<P>): (q: Registry<P>)
    requires Valid(r)
    ensures Valid(q)
    decreases |names|
  {
    if |names| == 0 then r
    else
      var c := construct(names[0]);
      Load(if c.Some? then Put(r, names[0], c.value) else r, names[1..], construct)
  }

  /** The constructible names among the configured ones. */
  function Constructible<P>(names: seq<String>, construct: String -> Option<P>): set<String>
  {
    set i | 0 <= i < |names| && construct(names[i]).Some? :: names[i]
  }

  lemma PutKeys<P>(r: Registry<P>, key: String, value: P)
    requires Valid(r)
    ensures KeySet(Put(r, key, value)) == KeySet(r) + {key}
  {
    var q := Put(r, key, value);
    var k := IndexOfKey(r.entries, key);
    forall x | x in KeySet(q) ensures x in KeySet(r) + {key} {
      var i :| 0 <= i < |q.entries| && q.entries[i].0 == x;
      if k < 0 && i == |r.entries| {
      } else {
        assert x == r.entries[i].0 || x == key;
      }
    }
    forall x | x in KeySet(r) + {key} ensures x in KeySet(q) {
      if x == key {
        var i :| 0 <= i < |q.entries| && q.entries[i] == (key, value);
      } else {
        var i :| 0 <= i < |r.entries| && r.entries[i].0 == x;
        assert q.entries[i].0 == x;
      }
    }
  }

  /** The registry holds exactly the constructible configured names, each once. */
  lemma {:induction false} LoadKeys<P>(r: Registry<P>, names: seq<String>, construct: String -> Option<P>)
    requires Valid(r)
    ensures KeySet(Load(r, names, construct)) == KeySet(r) + Constructible(names, construct)
    decreases |names|
  {
    if |names| > 0 {
      var c := construct(names[0]);
      var next := if c.Some? then Put(r, names[0], c.value) else r;
      if c.Some? {
        PutKeys(r, names[0], c.value);
      }
      LoadKeys(next, names[1..], construct);
      assert Constructible(names, construct)
             == (if c.Some? then {names[0]} else {}) + Constructible(names[1..], construct) by {
        forall x | x in Constructible(names, construct)
          ensures x in (if c.Some? then {names[0]} else {}) + Constructible(names[1..], construct)
        {
          var i :| 0 <= i < |names| && construct(names[i]).Some? && names[i] == x;
          if i > 0 {
            assert names[1..][i - 1] == x;
          }
        }
        forall x | x in Constructible(names[1..], construct)
          ensures x in Constructible(names, construct)
        {
          var i :| 0 <= i < |names[1..]| && construct(names[1..][i]).Some? && names[1..][i] == x;
          assert names[i + 1] == x;
        }
      }
    }
  }

  /** Distinct keys: the number of entries is the number of keys. */
  lemma {:induction false} SizeIsKeyCount<P>(r: Registry<P>)
    requires Valid(r)
    ensures |KeySet(r)| == |r.entries|
    decreases |r.entries|
  {
    if |r.entries| > 0 {
      var init := Registry(r.entries[..|r.entries| - 1]);
      DropLastValid(r);
      SizeIsKeyCount(init);
      KeySetDropLast(r);
    }
  }

  /** Without its last entry a registry keeps distinct keys, none of them the last key. */
  lemma DropLastValid<P>(r: Registry<P>)
    requires Valid(r) && |r.entries| > 0
    ensures var init := Registry(r.entries[..|r.entries| - 1]);
            Valid(init) && r.entries[|r.entries| - 1].0 !in KeySet(init)
  {
    var init := Registry(r.entries[..|r.entries| - 1]);
    assert forall i :: 0 <= i < |init.entries| ==> init.entries[i] == r.entries[i];
  }

  /** The keys of a registry are those without its last entry plus the last key. */
  lemma KeySetDropLast<P>(r: Registry<P>)
    requires |r.entries| > 0
    ensures KeySet(r) == KeySet(Registry(r.entries[..|r.entries| - 1])) + {r.entries[|r.entries| - 1].0}
  {
    var init := Registry(r.entries[..|r.entries| - 1]);
    var last := r.entries[|r.entries| - 1].0;
    forall x | x in KeySet(r) ensures x in KeySet(init) + {last} {
      var i :| 0 <= i < |r.entries| && r.entries[i].0 == x;
      if i < |r.entries| - 1 {
        assert init.entries[i].0 == x;
      }
    }
    forall x | x in KeySet(init) ensures x in KeySet(r) {
      var i :| 0 <= i < |init.entries| && init.entries[i].0 == x;
      assert r.entries[i].0 == x;
    }
  }

  /** `size()` after loading: the number of distinct constructible configured names. */
  function Size<P>(names: seq<String>, construct: String -> Option<P>): (n: nat)
    ensures n == |Constructible(names, construct)|
  {
    var r := Load(Registry([]), names, construct);
    LoadKeys(Registry([]), names, construct);
    SizeIsKeyCount(r);
    |r.entries|
  }

  /** The iterator: a position into the entries. */
  datatype Cursor = Cursor(position: nat)

  predicate HasNext<P>(r: Registry<P>, it: Cursor)
  {
    it.position < |r.entries|
  }

  /** `next()`: the next provider, or null (None) without moving once exhausted. */
  function Next<P>(r: Registry<P>, it: Cursor): (q: (Option<P>, Cursor))
    ensures HasNext(r, it) ==> q == (Some(r.entries[it.position].1), Cursor(it.position + 1))
    ensures !HasNext(r, it) ==> q == (None, it)
  {
    if it.position < |r.entries| then (Some(r.entries[it.position].1), Cursor(it.position + 1)) else (None, it)
  }

  /** `remove()` is unsupported. */
  function Remove<P>(r: Registry<P>, it: Cursor): (q: Outcome<Registry<P>>)
    ensures q == Thrown(UnsupportedOperation)
  {
    Thrown(UnsupportedOperation)
  }

  /** Calling `next()` n times from the start yields the providers in insertion order. */
  function Iterate<P>(r: Registry<P>, it: Cursor, n: nat): (vs: seq<Option<P>>)
    ensures |vs| == n
    decreases n
  {
    if n == 0 then [] else var (v, next) := Next(r, it); [v] + Iterate(r, next, n - 1)
  }

  lemma {:induction false} IterateInOrder<P>(r: Registry<P>, it: Cursor, n: nat)
    ensures forall k :: 0 <= k < n ==>
              Iterate(r, it, n)[k] == (if it.position + k < |r.entries| then Some(r.entries[it.position + k].1) else None)
    decreases n
  {
    if n > 0 {
      var (v, next) := Next(r, it);
      IterateInOrder(r, next, n - 1);
      forall k | 0 <= k < n
        ensures Iterate(r, it, n)[k] == (if it.position + k < |r.entries| then Some(r.entries[it.position + k].1) else None)
      {
        if k > 0 {
          assert Iterate(r, it, n)[k] == Iterate(r, next, n - 1)[k - 1];
          if it.position >= |r.entries| {
            assert next == it;
          }
        }
      }
    }
  }
}
