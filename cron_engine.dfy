/** The cron scheduler library (robfig/cron) as the hub uses it: a table of entries keyed
    by ids it hands out, each a parsed spec and the job it runs. Timing is not modelled. */
module CronEngine {
  import opened Models
  import opened CronTime

  /** One registered job: its parsed spec and the schedule its closure captured. */
  datatype Entry = Entry(spec: CronSpec, job: Schedule)

  class Cron {
    var entries: map<int, Entry>
    /** The last id handed out; ids start at 1. */
    var lastId: int
    var running: bool

    ghost predicate Valid()
      reads this
    {
      lastId >= 0 && forall id :: id in entries ==> 1 <= id <= lastId
    }

    /** `cron.New()`. */
    constructor ()
      ensures Valid() && entries == map[] && lastId == 0 && !running
    {
      entries := map[];
      lastId := 0;
      running := false;
    }

    /** `AddFunc(spec, job)`: a spec that does not parse is refused with id 0; otherwise the
        entry gets the next id. */
    method AddFunc(spec: string, job: Schedule) returns (id: int, ok: bool)
      requires Valid()
      modifies this`entries, this`lastId
      ensures Valid()
      ensures ok <==> ParseCron(spec).Some?
      ensures ok ==> id == old(lastId) + 1 && id !in old(entries) && lastId == id
                     && entries == old(entries)[id := Entry(ParseCron(spec).value, job)]
      ensures !ok ==> id == 0 && entries == old(entries) && lastId == old(lastId)
    {
      match ParseCron(spec)
      case None =>
        id, ok := 0, false;
      case Some(c) =>
        lastId := lastId + 1;
        id, ok := lastId, true;
        entries := entries[id := Entry(c, job)];
    }

    /** `Remove(id)`: an unknown id is ignored. */
    method Remove(id: int)
      requires Valid()
      modifies this`entries
      ensures Valid()
      ensures entries == old(entries) - {id}
    {
      entries := entries - {id};
    }

    /** `Start()`. */
    method Start()
      modifies this`running
      ensures running
    {
      running := true;
    }
  }
}
