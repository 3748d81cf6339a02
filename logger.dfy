/**
 * The append-only session store. Every producer (the telnet emulator, the
 * HTTP stubs) hands one record to `LogRequest`, which appends it as one JSON
 * line to a single shared file; readers load that file line by line.
 */
module Logger {
  import opened Wrappers
  import opened Text
  import opened Json

  const LogDirName := "logs"
  const LogFileName := "all_sessions.jsonl"

  /** The keys of every stored record, and nothing else. */
  const RecordKeys: set<string> := {"time", "src_ip", "service", "path", "method", "data"}

  /** A stored record: the moment it was written, who, which service, and its payload. */
  datatype LogRecord = LogRecord(
    time: string,
    srcIp: string,
    service: string,
    path: string,
    httpMethod: string,
    data: Json)

  /** The dict that `log_request` serialises. */
  function Entry(r: LogRecord): (j: Json)
    ensures j.JObj? && j.fields.Keys == RecordKeys
    ensures ReadEntry(j) == Some(r)
  {
    JObj(map[
      "time" := JStr(r.time),
      "src_ip" := JStr(r.srcIp),
      "service" := JStr(r.service),
      "path" := JStr(r.path),
      "method" := JStr(r.httpMethod),
      "data" := r.data])
  }

  /** How a reader recovers the six fields of a record; None if any is missing or not text. */
  function ReadEntry(j: Json): Option<LogRecord> {
    if j.JObj? && RecordKeys <= j.fields.Keys
       && j.fields["time"].JStr? && j.fields["src_ip"].JStr? && j.fields["service"].JStr?
       && j.fields["path"].JStr? && j.fields["method"].JStr?
    then Some(LogRecord(j.fields["time"].s, j.fields["src_ip"].s, j.fields["service"].s,
                        j.fields["path"].s, j.fields["method"].s, j.fields["data"]))
    else None
  }

  /** The serialised lines of the records, in store order. */
  function Dumped(records: seq<Json>, lib: Lib): seq<string> {
    seq(|records|, k requires 0 <= k < |records| => lib.dumps(records[k]))
  }

  /** The file's content: every record's line followed by "\n". */
  function FileText(records: seq<Json>, lib: Lib): string {
    Terminated(Dumped(records, lib))
  }

  /** Appending a record extends the file by exactly that record's line and one "\n";
      everything written before stays in place as a prefix. */
  lemma AppendExtendsFile(records: seq<Json>, r: Json, lib: Lib)
    ensures FileText(records + [r], lib) == FileText(records, lib) + lib.dumps(r) + "\n"
  {
    assert Dumped(records + [r], lib) == Dumped(records, lib) + [lib.dumps(r)];
    TerminatedAppend(Dumped(records, lib), lib.dumps(r));
  }

  lemma {:induction false} TerminatedAppend(lines: seq<string>, line: string)
    ensures Terminated(lines + [line]) == Terminated(lines) + line + "\n"
  {
    if lines != [] {
      assert (lines + [line])[1..] == lines[1..] + [line];
      TerminatedAppend(lines[1..], line);
    }
  }

  class SessionStore {
    /** LOG_FILE: the one destination every producer appends to. */
    const location: string
    /** The records in the file, oldest first. */
    var records: seq<Json>

    /** The store under `baseDir`, holding whatever records earlier runs wrote. */
    constructor (baseDir: string, existing: seq<Json>)
      ensures location == baseDir + "/" + LogDirName + "/" + LogFileName
      ensures records == existing
    {
      location := baseDir + "/" + LogDirName + "/" + LogFileName;
      records := existing;
    }

    /**
     * `log_request`: stamps the record with the clock reading `now` (an ISO
     * string, to which "Z" is appended), appends it as the last record, and
     * returns the store location whatever the input.
     */
    method LogRequest(now: string, srcIp: string, service: string, path: string,
                      httpMethod: string, data: Json) returns (loc: string)
      modifies this
      ensures records == old(records) + [Entry(LogRecord(now + "Z", srcIp, service, path, httpMethod, data))]
      ensures loc == location
    {
      var entry := Entry(LogRecord(now + "Z", srcIp, service, path, httpMethod, data));
      records := records + [entry];
      loc := location;
    }
  }
}
