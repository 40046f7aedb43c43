/**
 * The bug record shared by the reporter and the admin panel, and the
 * possible contents of the store file `bugs.json`.
 */
module Bugs {

  datatype Option<+T> = None | Some(value: T)

  datatype Result<+T, +E> = Success(value: T) | Failure(error: E)

  /** The three values offered by the reporter's read-only priority box. */
  datatype Priority = Low | Medium | High

  /** A record starts `Open`; the admin panel can move it to `Resolved`. */
  datatype Status = Open | Resolved

  /**
   * One JSON object of the store. `name` is optional because the admin
   * panel reads it with a default; every other key is read directly.
   */
  datatype Bug = Bug(
    name: Option<string>,
    program: string,
    priority: Priority,
    title: string,
    description: string,
    timestamp: string,
    status: Status)

  /**
   * What reading `bugs.json` can give: no file, text that is not JSON,
   * JSON whose top level is not an array, or an array of records.
   */
  datatype StoreFile = Absent | Corrupt | NonList | List(records: seq<Bug>)

  /** The JSON spelling of a priority. */
  function PriorityText(p: Priority): string {
    match p
    case Low => "Low"
    case Medium => "Medium"
    case High => "High"
  }

  /** The JSON spelling of a status. */
  function StatusText(s: Status): string {
    match s
    case Open => "Open"
    case Resolved => "Resolved"
  }

  /** The admin panel's rank map {High: 3, Medium: 2, Low: 1}. */
  function Rank(p: Priority): int {
    match p
    case High => 3
    case Medium => 2
    case Low => 1
  }

  /** The record with its status set to `Resolved` and nothing else changed. */
  function AsResolved(b: Bug): Bug {
    b.(status := Resolved)
  }
}
