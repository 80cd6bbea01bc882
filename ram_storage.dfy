/**
 * The in-memory task registry: a map from id to task plus the next id to
 * hand out. Each method is one atomic step; the lock that makes it atomic
 * in the running program is not modelled.
 */
module RamStorage {
  import opened Wrappers
  import opened Domain

  /** Whether a list request with `filter` keeps task `t`; the empty filter keeps everything. */
  predicate Keeps(filter: Status, t: Task)
  {
    filter == "" || t.status == filter
  }

  /** A key set that is exactly the ids 1 .. n - 1 has n - 1 elements. */
  lemma {:induction false} KeyRangeSize(keys: set<int>, n: int)
    requires n >= 1
    requires forall k :: k in keys <==> 1 <= k < n
    ensures |keys| == n - 1
  {
    if n > 1 {
      var rest := keys - {n - 1};
      KeyRangeSize(rest, n - 1);
      assert keys == rest + {n - 1};
    } else {
      forall k | k in keys ensures false {
      }
      assert keys == {};
    }
  }

  /**
   * Proof helper, set extensionality: a set of keys with no element is empty.
   * GetAll uses it to pick some key of a non-empty set; it models nothing itself.
   */
  lemma NoElementMeansEmpty(keys: set<int>)
    ensures (forall k :: k !in keys) ==> keys == {}
  {
    if forall k :: k !in keys {
      assert keys == {};
    }
  }

  class TaskRepo {
    var db: map<int, Task>
    var nextID: int

    /**
     * The registry invariant: the stored keys are exactly the ids handed out
     * so far, 1 .. nextID - 1, and every stored task carries its own key as id.
     */
    ghost predicate Valid()
      reads this
    {
      && nextID >= 1
      && (forall k :: k in db <==> 1 <= k < nextID)
      && (forall k :: k in db ==> db[k].id == k)
    }

    /** The ids of the stored tasks that a list request with `filter` returns. */
    ghost function MatchingIds(filter: Status): set<int>
      reads this
    {
      set k | k in db && Keeps(filter, db[k])
    }

    /** A new registry is empty and will hand out 1 first. */
    constructor NewTaskRepo()
      ensures Valid()
      ensures db == map[] && nextID == 1
    {
      db := map[];
      nextID := 1;
    }

    /**
     * Looks up `id`. On a hit the stored task comes back with no error; on a
     * miss the zero task comes back with `ErrNotFound`.
     */
    method Get(id: int) returns (task: Task, err: Option<Error>)
      requires Valid()
      ensures id in db ==> err == None && task == db[id] && task.id == id
      ensures id !in db ==> err == Some(ErrNotFound) && task == ZeroTask
      ensures id <= 0 || id >= nextID ==> err == Some(ErrNotFound)
    {
      if id !in db {
        return ZeroTask, Some(ErrNotFound);
      }
      task := db[id];
      err := None;
    }

    /**
     * Stores `task` under the next id, overwriting whatever id the caller
     * put in it, and returns that id.
     */
    method Post(task: Task) returns (id: int)
      requires Valid()
      modifies this
      ensures Valid()
      ensures id == old(nextID) && id >= 1 && id !in old(db)
      ensures nextID == id + 1
      ensures db == old(db)[id := task.(id := id)]
      ensures forall k :: k in old(db) ==> k in db && db[k] == old(db)[k]
    {
      var stored := task.(id := nextID);
      db := db[nextID := stored];
      nextID := nextID + 1;
      id := stored.id;
    }

    /**
     * Lists the stored tasks that `filter` keeps, each exactly once, in no
     * particular order. With the empty filter that is every stored task.
     */
    method GetAll(filter: Status) returns (tasks: seq<Task>)
      requires Valid()
      ensures forall i :: 0 <= i < |tasks| ==>
        tasks[i].id in db && db[tasks[i].id] == tasks[i] && Keeps(filter, tasks[i])
      ensures forall k :: k in db && Keeps(filter, db[k]) ==> db[k] in tasks
      ensures forall i, j :: 0 <= i < j < |tasks| ==> tasks[i] != tasks[j]
      ensures |tasks| == |MatchingIds(filter)|
      ensures filter == "" ==> |tasks| == |db| == nextID - 1
    {
      tasks := [];
      var remaining := db.Keys;
      ghost var seen: set<int> := {};
      while remaining != {}
        invariant remaining <= db.Keys
        invariant seen == set k | k in db && k !in remaining && Keeps(filter, db[k])
        invariant |seen| == |tasks|
        invariant forall i :: 0 <= i < |tasks| ==> tasks[i].id in seen && db[tasks[i].id] == tasks[i]
        invariant forall k :: k in seen ==> db[k] in tasks
        invariant forall i, j :: 0 <= i < j < |tasks| ==> tasks[i] != tasks[j]
        decreases remaining
      {
        NoElementMeansEmpty(remaining);
        var k :| k in remaining;
        var task := db[k];
        if Keeps(filter, task) {
          tasks := tasks + [task];
          seen := seen + {k};
        }
        remaining := remaining - {k};
      }
      assert seen == MatchingIds(filter);
      if filter == "" {
        assert MatchingIds(filter) == db.Keys;
        KeyRangeSize(db.Keys, nextID);
      }
    }
  }

  /**
   * Posting then getting: the task comes back with the id Post returned and
   * with every other field as given.
   */
  method PostThenGet(repo: TaskRepo, task: Task) returns (id: int, got: Task, err: Option<Error>)
    requires repo.Valid()
    modifies repo
    ensures repo.Valid()
    ensures err == None && got == task.(id := id)
    ensures got.data == task.data && got.status == task.status
  {
    id := repo.Post(task);
    got, err := repo.Get(id);
  }

  /**
   * Posting several tasks one after another: the ids are consecutive from the
   * old next id, so they strictly increase, never repeat and are all positive,
   * and each task is stored under its own id.
   */
  method PostEach(repo: TaskRepo, tasks: seq<Task>) returns (ids: seq<int>)
    requires repo.Valid()
    modifies repo
    ensures repo.Valid()
    ensures |ids| == |tasks|
    ensures forall i :: 0 <= i < |ids| ==> ids[i] == old(repo.nextID) + i && ids[i] >= 1
    ensures forall i, j :: 0 <= i < j < |ids| ==> ids[i] < ids[j]
    ensures forall i :: 0 <= i < |ids| ==> ids[i] in repo.db && repo.db[ids[i]] == tasks[i].(id := ids[i])
    ensures repo.nextID == old(repo.nextID) + |tasks|
    ensures forall k :: k in old(repo.db) ==> k in repo.db && repo.db[k] == old(repo.db)[k]
  {
    ids := [];
    for n := 0 to |tasks|
      invariant repo.Valid()
      invariant |ids| == n
      invariant repo.nextID == old(repo.nextID) + n
      invariant forall i :: 0 <= i < n ==> ids[i] == old(repo.nextID) + i
      invariant forall i :: 0 <= i < n ==> ids[i] in repo.db && repo.db[ids[i]] == tasks[i].(id := ids[i])
      invariant forall k :: k in old(repo.db) ==> k in repo.db && repo.db[k] == old(repo.db)[k]
    {
      var id := repo.Post(tasks[n]);
      ids := ids + [id];
    }
  }
}
