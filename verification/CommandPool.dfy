/** The process-wide pool of Runs launched by this pod. */
module CommandPool {
  import opened Wrappers

  datatype Entry = Entry(killable: bool, pgids: seq<int>)

  class RunningPool {
    var entries: map<string, Entry>

    constructor ()
      ensures entries == map[]
    {
      entries := map[];
    }

    method Add(id: string, entry: Entry)
      modifies this
      ensures entries == old(entries)[id := entry]
    {
      entries := entries[id := entry];
    }

    /** The running task fills in the entry's process groups. */
    method SetPgids(id: string, pgids: seq<int>)
      requires id in entries
      modifies this
      ensures entries == old(entries)[id := old(entries)[id].(pgids := pgids)]
    {
      entries := entries[id := entries[id].(pgids := pgids)];
    }

    method Get(id: string) returns (entry: Option<Entry>)
      ensures entry == if id in entries then Some(entries[id]) else None
    {
      if id in entries {
        return Some(entries[id]);
      }
      return None;
    }

    /** A no-op if the id is absent, so a second removal changes nothing. */
    method Remove(id: string)
      modifies this
      ensures entries == old(entries) - {id}
      ensures id !in old(entries) ==> entries == old(entries)
    {
      entries := entries - {id};
    }

    method Size() returns (n: nat)
      ensures n == |entries|
    {
      return |entries|;
    }
  }
}
