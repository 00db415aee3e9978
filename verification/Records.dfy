/** app/models/schemas.py: the context record and the validated request bodies. */
module Records {
  import opened Wrappers

  /** A reading of the wall clock. */
  type Stamp = int

  datatype Record = Record(id: string, title: string, description: string, done: bool,
                           created: Option<Stamp>, updated: Option<Stamp>)

  /** The fields a request sets; a field is absent or carries a value. */
  datatype Changes = Changes(title: Option<string>, description: Option<string>, done: Option<bool>)

  function Pick<T>(change: Option<T>, current: T): T {
    if change.Some? then change.value else current
  }

  function Amend(r: Record, u: Changes, stamp: Stamp): Record {
    Record(r.id, Pick(u.title, r.title), Pick(u.description, r.description), Pick(u.done, r.done),
           r.created, Some(stamp))
  }

  function NewRecord(id: string, title: string, description: string, stamp: Stamp): Record {
    Record(id, title, description, false, Some(stamp), Some(stamp))
  }
}
