/**
 * The file-based presence source: a text file lists the associated
 * addresses one per line, and occupancy holds when ANY watched address is
 * one of its lines.
 *
 * Reading the file is an input: its contents, or None when it cannot be read.
 */
module FileSource {
  import opened Wrappers
  import opened Sets

  /** The opaque error a failed file creation or watch hands back. */
  datatype Error = Error(message: string)

  /** The separator-free lines of `s`, as strings.Split(s, "\n") cuts them: nothing is trimmed. */
  function Split(s: string): (r: seq<string>)
    ensures |r| >= 1
  {
    if s == [] then [""]
    else
      var rest := Split(s[1..]);
      if s[0] == '\n' then [""] + rest
      else [[s[0]] + rest[0]] + rest[1..]
  }

  /** strings.Join(parts, "\n"). */
  function Join(parts: seq<string>): string
  {
    if parts == [] then ""
    else if |parts| == 1 then parts[0]
    else parts[0] + "\n" + Join(parts[1..])
  }

  /** The number of separators in `s`. */
  function Newlines(s: string): nat
  {
    if s == [] then 0 else (if s[0] == '\n' then 1 else 0) + Newlines(s[1..])
  }

  /** Splitting loses nothing: joining the pieces gives back the contents. */
  lemma {:induction false} JoinSplit(s: string)
    ensures Join(Split(s)) == s
  {
    if s != [] {
      var rest := Split(s[1..]);
      JoinSplit(s[1..]);
      if s[0] == '\n' {
        assert Join(Split(s)) == "" + "\n" + Join(rest);
      } else {
        var r := Split(s);
        if |rest| == 1 {
          assert r == [[s[0]] + rest[0]];
        } else {
          assert r[1..] == rest[1..];
          assert Join(rest) == rest[0] + "\n" + Join(rest[1..]);
        }
      }
      assert s == [s[0]] + s[1..];
    }
  }

  /** No piece contains the separator, and there is one piece more than there are separators. */
  lemma {:induction false} SplitPieces(s: string)
    ensures |Split(s)| == Newlines(s) + 1
    ensures forall i :: 0 <= i < |Split(s)| ==> '\n' !in Split(s)[i]
  {
    if s != [] {
      SplitPieces(s[1..]);
    }
  }

  /** Splitting is the inverse of joining pieces that hold no separator. */
  lemma {:induction false} SplitJoin(parts: seq<string>)
    requires |parts| >= 1
    requires forall i :: 0 <= i < |parts| ==> '\n' !in parts[i]
    ensures Split(Join(parts)) == parts
  {
    if |parts| == 1 {
      SplitLine(parts[0]);
    } else {
      SplitJoin(parts[1..]);
      SplitLineThen(parts[0], Join(parts[1..]));
      assert parts == [parts[0]] + parts[1..];
    }
  }

  /** A separator-free string is a single piece. */
  lemma {:induction false} SplitLine(line: string)
    requires '\n' !in line
    ensures Split(line) == [line]
  {
    if line != [] {
      SplitLine(line[1..]);
      assert line == [line[0]] + line[1..];
    }
  }

  /** A separator-free line followed by a separator is cut off as the first piece. */
  lemma {:induction false} SplitLineThen(line: string, tail: string)
    requires '\n' !in line
    ensures Split(line + "\n" + tail) == [line] + Split(tail)
  {
    if line == [] {
      assert line + "\n" + tail == "\n" + tail;
      assert ("\n" + tail)[1..] == tail;
    } else {
      var s := line + "\n" + tail;
      assert s[0] == line[0];
      assert s[1..] == line[1..] + "\n" + tail;
      SplitLineThen(line[1..], tail);
      assert line == [line[0]] + line[1..];
    }
  }

  /** Contents that end with the separator contribute an empty line. */
  lemma {:induction false} TrailingNewline(s: string)
    ensures Split(s + "\n") == Split(s) + [""]
  {
    if s == [] {
      assert "" + "\n" == "\n";
    } else {
      assert (s + "\n")[1..] == s[1..] + "\n";
      TrailingNewline(s[1..]);
    }
  }

  /** A carriage return is not trimmed: a line ending in "\r\n" keeps its "\r". */
  lemma CarriageReturnKept(line: string)
    requires '\n' !in line
    ensures Split(line + "\r\n") == [line + "\r", ""]
  {
    SplitLineThen(line + "\r", "");
    assert line + "\r" + "\n" + "" == line + "\r\n";
  }

  /** The occupancy rule of this source: some watched address is one of the lines. */
  function AnyPresent(watched: set<string>, lines: set<string>): (r: bool)
    ensures r <==> exists a :: a in watched && a in lines
  {
    if |watched * lines| > 0 then
      var a :| a in watched * lines;
      true
    else
      assert forall a :: a in watched && a in lines ==> a in watched * lines;
      false
  }

  /** What IsOccupied reports for the file as read: false when the read failed. */
  function Occupancy(watched: set<string>, contents: Option<string>): bool
  {
    match contents
    case None => false
    case Some(data) => AnyPresent(watched, SetOf(Split(data)))
  }

  /** An unreadable file and an empty watched set both report "not occupied". */
  lemma OccupancyFalseCases(watched: set<string>, contents: Option<string>)
    ensures contents.None? ==> !Occupancy(watched, contents)
    ensures watched == {} ==> !Occupancy(watched, contents)
  {
  }

  class FilePresence {
    var addresses: set<string>
    /** The values sent on the monitor channel, oldest first. */
    var monitor: seq<bool>

    constructor (addresses: set<string>)
      ensures this.addresses == addresses && monitor == []
    {
      this.addresses := addresses;
      monitor := [];
    }

    /** The set of lines of the file, built by adding each piece of the split. */
    static method Lines(data: string) returns (lines: set<string>)
      ensures forall line :: line in lines <==> line in Split(data)
    {
      lines := AddAll(Split(data));
    }

    /** IsOccupied: true exactly when the file was read and one of its lines is a watched address. */
    method IsOccupied(contents: Option<string>) returns (occupied: bool)
      ensures occupied <==> contents.Some? && exists a :: a in addresses && a in Split(contents.value)
      ensures occupied == Occupancy(addresses, contents)
    {
      if contents.None? {
        return false;
      }
      var lines := Lines(contents.value);
      assert lines == SetOf(Split(contents.value));
      occupied := |addresses * lines| > 0;
      assert occupied == AnyPresent(addresses, lines);
    }

    /**
     * Watch: after the file has been created if missing and the watch set
     * up, push the occupancy of the file once; a setup failure is returned
     * and nothing is pushed.
     */
    method Watch(setup: Option<Error>, contents: Option<string>) returns (err: Option<Error>)
      modifies this
      ensures addresses == old(addresses)
      ensures err == setup
      ensures setup.Some? ==> monitor == old(monitor)
      ensures setup.None? ==> monitor == old(monitor) + [Occupancy(addresses, contents)]
    {
      if setup.Some? {
        return setup;
      }
      var occupied := IsOccupied(contents);
      monitor := monitor + [occupied];
      return None;
    }

    /** A write to the file: the timer fired after it pushes the occupancy of the file as read then. */
    method Written(contents: Option<string>)
      modifies this
      ensures addresses == old(addresses)
      ensures monitor == old(monitor) + [Occupancy(addresses, contents)]
    {
      var occupied := IsOccupied(contents);
      monitor := monitor + [occupied];
    }
  }
}
