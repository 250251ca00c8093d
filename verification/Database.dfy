/** The in-memory database (src/database/memory.rs). */
module Database {
  import opened Base

  class MemoryDatabase {
    var data: Db

    constructor ()
      ensures data == map[]
    {
      data := map[];
    }

    method Get(key: HashValue) returns (r: Option<Blob>)
      ensures r == if key in data then Some(data[key]) else None
    {
      r := if key in data then Some(data[key]) else None;
    }

    method Insert(key: HashValue, value: Blob)
      modifies this
      ensures data == old(data)[key := value]
    {
      data := data[key := value];
    }

    method Exists(key: HashValue) returns (r: bool)
      ensures r <==> key in data
    {
      r := key in data;
    }
  }
}
