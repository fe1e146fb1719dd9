/** The file record of the single-tree scan (the `info` dictionary) and its status. */
module Records {
  import opened FileSystem

  datatype Status = Keep | MoveToBackup

  /**
   * One scanned file: `title` is the file name, `size` its byte size at scan
   * time, `path` the joined path. Its CSV row is the record itself at the
   * time it is written (the two date columns are not modelled).
   */
  datatype Record = Record(title: Name, size: nat, path: Path, status: Status)

  function SumSizes(rs: seq<Record>): nat {
    if rs == [] then 0 else SumSizes(rs[..|rs| - 1]) + rs[|rs| - 1].size
  }
}
