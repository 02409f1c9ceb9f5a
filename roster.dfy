/**
 * The rotation roster: the module-level `users` dictionary of main.py, which maps
 * a Discord user id to a `{name, timezone}` record.
 *
 * A Python dict remembers insertion order, and the `/list` command prints the
 * entries in that order, so the roster is a sequence of (id, entry) slots whose
 * ids are pairwise distinct. Overwriting an existing key keeps its slot; a new
 * key is appended; popping a key closes the gap and keeps the others in order.
 */
module Roster {
  import opened Wrappers

  /** A Discord user id (a non-negative integer snowflake). */
  type UserId = nat

  /** The record stored per user: `{'name': ..., 'timezone': ...}`. */
  datatype Entry = Entry(name: string, timezone: string)

  /** One key/value pair of the dictionary, at its insertion position. */
  datatype Slot = Slot(id: UserId, entry: Entry)

  type Users = seq<Slot>

  /** The dictionary invariant: no key occurs twice. */
  predicate DistinctKeys(users: Users)
  {
    forall i, j :: 0 <= i < j < |users| ==> users[i].id != users[j].id
  }

  /**
   * `list(users.keys())`: the keys in insertion order. A value is listed exactly
   * when a lookup finds it, and a dictionary lists no key twice.
   */
  function Keys(users: Users): (ks: seq<UserId>)
    ensures |ks| == |users|
    ensures forall i :: 0 <= i < |users| ==> ks[i] == users[i].id
    ensures forall k :: k in ks <==> Find(users, k).Some?
    ensures DistinctKeys(users) ==> forall i, j :: 0 <= i < j < |ks| ==> ks[i] != ks[j]
  {
    seq(|users|, i requires 0 <= i < |users| => users[i].id)
  }

  /** The position of key `id`, if it is present: the first slot that holds it. */
  function Find(users: Users, id: UserId): (r: Option<nat>)
    ensures r.Some? ==> r.value < |users| && users[r.value].id == id
    ensures r.Some? ==> forall j :: 0 <= j < r.value ==> users[j].id != id
    ensures r.None? <==> forall j :: 0 <= j < |users| ==> users[j].id != id
  {
    if users == [] then None
    else if users[0].id == id then Some(0)
    else match Find(users[1..], id)
      case None => None
      case Some(k) => Some(k + 1)
  }

  /** `users.get(id)`: the entry stored under `id`, or None. */
  function Get(users: Users, id: UserId): Option<Entry>
  {
    match Find(users, id)
    case None => None
    case Some(i) => Some(users[i].entry)
  }

  /** In a roster with distinct keys, the entry read back for a slot's key is that slot's entry. */
  lemma GetSlot(users: Users, i: nat)
    requires DistinctKeys(users) && i < |users|
    ensures Get(users, users[i].id) == Some(users[i].entry)
  {
  }

  /**
   * `users[id] = e` (main.py:49): insert or overwrite. The new roster stores `e`
   * under `id`, every other key keeps its entry, an existing key keeps its
   * position and a new key goes to the end.
   */
  function Put(users: Users, id: UserId, e: Entry): (r: Users)
    requires DistinctKeys(users)
    ensures DistinctKeys(r)
    ensures Get(r, id) == Some(e)
    ensures forall k :: k != id ==> Get(r, k) == Get(users, k)
    ensures Keys(r) == if Find(users, id).Some? then Keys(users) else Keys(users) + [id]
  {
    match Find(users, id)
    case Some(i) =>
      var r := users[i := Slot(id, e)];
      assert forall k :: k != id ==> Find(r, k) == Find(users, k) by {
        forall k | k != id ensures Find(r, k) == Find(users, k) {
          SameFind(users, r, k);
        }
      }
      assert Keys(r) == Keys(users);
      r
    case None =>
      var r := users + [Slot(id, e)];
      assert forall k :: k != id ==> Find(r, k) == Find(users, k) by {
        forall k | k != id ensures Find(r, k) == Find(users, k) {
          SameFind(users, r, k);
        }
      }
      assert r[|users|].id == id;
      assert forall j :: 0 <= j < |users| ==> r[j].id != id;
      r
  }

  /**
   * Two rosters that hold key `k` at the same positions within the shorter one,
   * and where the longer one adds no occurrence of `k`, find `k` at the same place.
   */
  lemma SameFind(a: Users, b: Users, k: UserId)
    requires |a| <= |b|
    requires forall j :: 0 <= j < |a| ==> (a[j].id == k <==> b[j].id == k)
    requires forall j :: |a| <= j < |b| ==> b[j].id != k
    ensures Find(a, k) == Find(b, k)
  {
  }

  /**
   * `users.pop(id, None)` (main.py:60): the removed entry, or None when `id` was
   * absent, and the roster without it. An absent key leaves the roster as it
   * was; a present key is removed and the slots after it move up by one.
   */
  function Pop(users: Users, id: UserId): (r: (Option<Entry>, Users))
    requires DistinctKeys(users)
    ensures r.0 == Get(users, id)
    ensures DistinctKeys(r.1)
    ensures Get(r.1, id) == None
    ensures forall k :: k != id ==> Get(r.1, k) == Get(users, k)
    ensures r.0.None? ==> r.1 == users
    ensures r.0.Some? ==> |r.1| == |users| - 1
    ensures forall i :: 0 <= i < |r.1| ==>
      r.1[i] == if Find(users, id).Some? && Find(users, id).value <= i then users[i + 1] else users[i]
  {
    match Find(users, id)
    case None => (None, users)
    case Some(i) =>
      var r := users[..i] + users[i + 1..];
      assert forall j :: 0 <= j < |r| ==> r[j] == if j < i then users[j] else users[j + 1];
      assert forall k :: k != id ==> Get(r, k) == Get(users, k) by {
        forall k | k != id ensures Get(r, k) == Get(users, k) {
          PopFind(users, i, k);
        }
      }
      (Some(users[i].entry), r)
  }

  /** Removing slot `i` moves every other key's first position up by one if it was after `i`. */
  lemma PopFind(users: Users, i: nat, k: UserId)
    requires DistinctKeys(users) && i < |users| && users[i].id != k
    ensures Get(users[..i] + users[i + 1..], k) == Get(users, k)
  {
    var r := users[..i] + users[i + 1..];
    match Find(users, k)
    case None =>
    case Some(j) =>
      var j' := if j < i then j else j - 1;
      assert r[j'] == users[j];
      GetSlot(users, j);
      assert DistinctKeys(r) by {
        forall a, b | 0 <= a < b < |r| ensures r[a].id != r[b].id {
          var a' := if a < i then a else a + 1;
          var b' := if b < i then b else b + 1;
          assert r[a] == users[a'] && r[b] == users[b'];
        }
      }
      GetSlot(r, j');
  }
}
