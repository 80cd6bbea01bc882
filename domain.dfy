/**
 * The domain types of the task tracker: a task status is a plain string,
 * three status names are predefined, and a task is an id, a free-text
 * payload and a status.
 */
module Domain {

  /** A status is any string; the type does not restrict it to the named ones. */
  type Status = string

  const Done: Status := "done"
  const InProgress: Status := "in_progress"
  const Ready: Status := "ready"

  /** The three predefined status names, as a set. */
  const KnownStatuses: set<Status> := {Done, InProgress, Ready}

  /** A stored task. There is no title field. */
  datatype Task = Task(id: int, data: string, status: Status)

  /** The zero value of a task, returned alongside an error. */
  const ZeroTask: Task := Task(0, "", "")

  /** The errors the registry reports; a lookup miss is the only one. */
  datatype Error = ErrNotFound

  /** The predefined statuses are pairwise distinct and none is empty. */
  lemma StatusConstants()
    ensures Done != InProgress && InProgress != Ready && Ready != Done
    ensures Done != "" && InProgress != "" && Ready != ""
    ensures |KnownStatuses| == 3 && "" !in KnownStatuses
  {
  }
}
