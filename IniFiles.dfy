/**
 * LDAP.ini next to the assembly, seen as File.Exists plus File.ReadAllLines: whether the file
 * is there and, if it is, its lines. Writes replace the lines; `writes` counts them so that
 * a contract can say when an operation leaves the file untouched on disk.
 */
module IniFiles {
  import opened Wrappers
  import opened Strings

  class IniFile {
    var present: bool
    var lines: seq<string>
    ghost var writes: nat

    constructor (present: bool, lines: seq<string>)
      ensures this.present == present && this.lines == (if present then lines else [])
      ensures writes == 0
    {
      this.present := present;
      this.lines := if present then lines else [];
      writes := 0;
    }

    /** What a reader of the store sees: the lines, or `None` when there is no file. */
    function Contents(): (r: Option<seq<string>>)
      reads this
      ensures r.Some? <==> present
      ensures r.Some? ==> r.value == lines
    {
      if present then Some(lines) else None
    }

    /** File.WriteAllLines / File.WriteAllText: the file now holds exactly `newLines`. */
    method WriteAllLines(newLines: seq<string>)
      modifies this
      ensures present && lines == newLines
      ensures writes == old(writes) + 1
    {
      present := true;
      lines := newLines;
      writes := writes + 1;
    }

    /** File.AppendAllText of one line ending in a newline; a missing file is created. */
    method AppendLine(line: string)
      modifies this
      ensures present
      ensures lines == old(if present then lines else []) + [line]
      ensures writes == old(writes) + 1
    {
      if !present {
        lines := [];
      }
      present := true;
      lines := lines + [line];
      writes := writes + 1;
    }
  }

  /** The index of the first line that starts with `prefix`. */
  function FirstLineWith(lines: seq<string>, prefix: string): (r: Option<nat>)
    ensures r.Some? ==> r.value < |lines| && StartsWith(lines[r.value], prefix)
    ensures forall j :: 0 <= j < |lines| && (r.None? || j < r.value) ==> !StartsWith(lines[j], prefix)
  {
    if |lines| == 0 then None
    else if StartsWith(lines[0], prefix) then Some(0)
    else
      match FirstLineWith(lines[1..], prefix)
      case None => None
      case Some(k) => Some(k + 1)
  }

  /** Rewriting the first line that starts with `prefix` with another such line keeps it first. */
  lemma {:induction false} FirstLineWithAfterUpdate(lines: seq<string>, prefix: string, k: nat, line: string)
    requires FirstLineWith(lines, prefix) == Some(k)
    requires StartsWith(line, prefix)
    ensures FirstLineWith(lines[k := line], prefix) == Some(k)
  {
    if k > 0 {
      assert FirstLineWith(lines[1..], prefix) == Some(k - 1);
      FirstLineWithAfterUpdate(lines[1..], prefix, k - 1, line);
      assert lines[k := line][1..] == lines[1..][k - 1 := line];
    }
  }
}
