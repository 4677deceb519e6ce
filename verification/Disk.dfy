/**
 The part of a file system that the mail queue and the mail store rely on: whole files at paths,
 atomic renames that keep the write time, and a power loss that spares what was flushed.
 */
module Disk {

  /** The directories the two components use. */
  datatype Folder =
    | Active | Inflight | Failure | PermanentFail
    | Inbox(user: string) | Quarantine(user: string)

  /** A path; `temp` tells the ".tmp" companion of a file from the file itself. */
  datatype Path = Path(folder: Folder, name: string, temp: bool)

  /** `durable` is set once the data was flushed; `written` is the time of the last write. */
  datatype File = File(data: string, durable: bool, written: nat)

  type Files = map<Path, File>

  /** A rename moves the file with its write time and replaces whatever was at the target. */
  function Renamed(fs: Files, src: Path, dst: Path): Files
    requires src in fs
  {
    (fs - {src})[dst := fs[src]]
  }

  function Removed(fs: Files, p: Path): Files {
    fs - {p}
  }

  /** What may be found after a power loss: flushed files as they were, anything in place of the others. */
  ghost predicate SurvivesPowerLoss(before: Files, after: Files) {
    && after.Keys <= before.Keys
    && forall p :: p in before && before[p].durable ==> p in after && after[p] == before[p]
  }

  /** The startup sweep: every temp file is gone and nothing else was touched. */
  function Swept(fs: Files): Files {
    map p | p in fs && !p.temp :: fs[p]
  }
}
