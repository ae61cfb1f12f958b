/** The `ExifTool` class of `exiftool.py`: one exiftool process kept open with
    `-stay_open True -@ -`, fed one argument per line on its standard input,
    each command ended by `-execute`, each reply ended by the `{ready}` line.
    The process itself is not modelled: what the script writes to it is
    recorded in `stdin`, and what it will print is given as the sequence of
    chunks `os.read` returns, in order. */
module ExifToolSession {
  import opened Text

  const Sentinel := "{ready}\n"
  const Shutdown := "-stay_open\nFalse\n"
  const DefaultExecutable := "/usr/local/bin/exiftool"

  /** What `execute(*args)` writes: the arguments and a final `-execute\n`,
      joined by newlines. Read line by line, as `-@ -` makes exiftool read
      it, this gives back each argument on its own line, then `-execute`,
      then nothing after the final newline, provided no argument contains a
      newline. */
  function Command(args: seq<string>): (text: string)
    ensures (forall k :: 0 <= k < |args| ==> '\n' !in args[k]) ==>
      SplitOn(text, '\n') == args + ["-execute", ""]
  {
    ExecuteLines(args);
    JoinWith("\n", args + ["-execute\n"])
  }

  /** Everything the given chunks add up to. */
  function Concat(chunks: seq<string>): string
  {
    if chunks == [] then "" else Concat(chunks[..|chunks| - 1]) + chunks[|chunks| - 1]
  }

  /** The number of chunks `execute` reads, counting from k: the first prefix
      of at least k chunks whose concatenation ends with the sentinel, or None
      when there is none and the read loop would wait forever. */
  function ReplyEndFrom(chunks: seq<string>, k: nat): (r: Option<nat>)
    requires 1 <= k
    ensures r.Some? ==> k <= r.value <= |chunks| && EndsWith(Concat(chunks[..r.value]), Sentinel)
    ensures r.Some? ==> forall j :: k <= j < r.value ==> !EndsWith(Concat(chunks[..j]), Sentinel)
    ensures r.None? ==> forall j :: k <= j <= |chunks| ==> !EndsWith(Concat(chunks[..j]), Sentinel)
    decreases |chunks| + 1 - k
  {
    if k > |chunks| then None
    else if EndsWith(Concat(chunks[..k]), Sentinel) then Some(k)
    else ReplyEndFrom(chunks, k + 1)
  }

  /** The reply to one command: `execute` reads at least once, since the empty
      buffer does not end with the sentinel. */
  function ReplyEnd(chunks: seq<string>): Option<nat>
  {
    ReplyEndFrom(chunks, 1)
  }

  lemma ConcatSnoc(chunks: seq<string>, n: nat)
    requires n < |chunks|
    ensures Concat(chunks[..n + 1]) == Concat(chunks[..n]) + chunks[n]
  {
    assert chunks[..n + 1][..n] == chunks[..n];
  }

  /** The read loop of `execute`: append chunks while the buffer does not end
      with the sentinel, then strip it. The reply plus the sentinel is exactly
      what was read, and no shorter prefix of the reads ended with the
      sentinel. With the chunks exhausted and no sentinel, the loop would block
      on the next read: that is `None`. */
  method ReadUntilSentinel(chunks: seq<string>) returns (reply: Option<string>, used: nat)
    ensures used <= |chunks|
    ensures reply.Some? <==> ReplyEnd(chunks).Some?
    ensures reply.Some? ==> ReplyEnd(chunks) == Some(used) && reply.value + Sentinel == Concat(chunks[..used])
    ensures reply.None? ==> used == |chunks|
  {
    var output := "";
    used := 0;
    while !EndsWith(output, Sentinel) && used < |chunks|
      invariant used <= |chunks|
      invariant output == Concat(chunks[..used])
      invariant ReplyEnd(chunks) == if EndsWith(output, Sentinel) then Some(used) else ReplyEndFrom(chunks, used + 1)
      decreases |chunks| - used
    {
      ConcatSnoc(chunks, used);
      output := output + chunks[used];
      used := used + 1;
    }
    if EndsWith(output, Sentinel) {
      reply := Some(output[..|output| - |Sentinel|]);
      assert output == reply.value + Sentinel;
    } else {
      reply := None;
    }
  }

  /** `read_metadata(*filenames)`: group names, JSON, numeric values; three
      options, each a flag starting with `-`, then the file names in order. */
  function ReadArgs(filenames: seq<string>): (args: seq<string>)
    ensures |args| == |filenames| + 3 && args[3..] == filenames
    ensures args[..3] == ["-G", "-j", "-n"]
    ensures forall k :: 0 <= k < 3 ==> |args[k]| >= 2 && args[k][0] == '-'
  {
    ["-G", "-j", "-n"] + filenames
  }

  /** `read_time_metadata(*filenames)`: the same options plus every time
      tag, then the file names in order. */
  function ReadTimeArgs(filenames: seq<string>): (args: seq<string>)
    ensures |args| == |filenames| + 4 && args[..3] == ReadArgs([]) && args[3] == "-time:all"
    ensures args[4..] == filenames
  {
    ["-G", "-j", "-n", "-time:all"] + filenames
  }

  /** One `-k=v` argument of `write_metadata`. */
  function WriteArg(key: string, value: string): string
  {
    "-" + key + "=" + value
  }

  /** `write_metadata(filename, tags)`: one argument per tag in the
      dictionary's order, then the file name. */
  function WriteArgs(filename: string, tags: seq<(string, string)>): (args: seq<string>)
    ensures |args| == |tags| + 1 && args[|tags|] == filename
  {
    seq(|tags|, i requires 0 <= i < |tags| => WriteArg(tags[i].0, tags[i].1)) + [filename]
  }

  /** How exiftool reads a `-k=v` argument: the tag up to the first `=`, the
      value after it. */
  function ParseWriteArg(arg: string): Option<(string, string)>
  {
    if |arg| >= 1 && arg[0] == '-' && '=' in arg[1..] then
      var body := arg[1..];
      var i := FirstIndex(body, '=');
      Some((body[..i], body[i + 1..]))
    else None
  }

  /** A tag name without `=` is read back with its value, whatever the value
      contains. */
  lemma WriteArgRoundTrip(key: string, value: string)
    requires '=' !in key
    ensures ParseWriteArg(WriteArg(key, value)) == Some((key, value))
  {
    var arg := WriteArg(key, value);
    var body := arg[1..];
    assert body == key + "=" + value;
    assert body[|key|] == '=';
    var i := FirstIndex(body, '=');
    assert forall j :: 0 <= j < |key| ==> body[j] == key[j];
    assert i <= |key| ==> body[..i] == key[..i];
    assert i == |key|;
    assert body[..i] == key && body[i + 1..] == value;
  }

  /** Every tag of the dictionary reaches exiftool as the argument at its own
      position, readable back as that tag and value, and the file name comes
      last. */
  lemma WriteArgsCarryTags(filename: string, tags: seq<(string, string)>)
    requires forall i :: 0 <= i < |tags| ==> '=' !in tags[i].0
    ensures var args := WriteArgs(filename, tags);
      forall i :: 0 <= i < |tags| ==> ParseWriteArg(args[i]) == Some(tags[i])
  {
    var args := WriteArgs(filename, tags);
    forall i | 0 <= i < |tags|
      ensures ParseWriteArg(args[i]) == Some(tags[i])
    {
      WriteArgRoundTrip(tags[i].0, tags[i].1);
    }
  }

  lemma {:induction false} JoinSnoc(sep: string, parts: seq<string>, last: string)
    requires 1 <= |parts|
    ensures JoinWith(sep, parts + [last]) == JoinWith(sep, parts) + sep + last
  {
    if |parts| > 1 {
      assert (parts + [last])[1..] == parts[1..] + [last];
      JoinSnoc(sep, parts[1..], last);
    }
  }

  /** The lines of the joined command text, whatever the arguments. */
  lemma ExecuteLines(args: seq<string>)
    ensures (forall k :: 0 <= k < |args| ==> '\n' !in args[k]) ==>
      SplitOn(JoinWith("\n", args + ["-execute\n"]), '\n') == args + ["-execute", ""]
  {
    if forall k :: 0 <= k < |args| ==> '\n' !in args[k] {
      JoinedLines(args);
    }
  }

  /** The same, for arguments free of newlines. */
  lemma JoinedLines(args: seq<string>)
    requires forall k :: 0 <= k < |args| ==> '\n' !in args[k]
    ensures SplitOn(JoinWith("\n", args + ["-execute\n"]), '\n') == args + ["-execute", ""]
  {
    var lines := args + ["-execute", ""];
    ExecuteText(args);
    LinesWithoutNewline(args);
    SplitJoin(lines, '\n');
  }

  /** No line of a command contains a newline when no argument does. */
  lemma LinesWithoutNewline(args: seq<string>)
    requires forall k :: 0 <= k < |args| ==> '\n' !in args[k]
    ensures forall k :: 0 <= k < |args| + 2 ==> '\n' !in (args + ["-execute", ""])[k]
  {
    var lines := args + ["-execute", ""];
    forall k | 0 <= k < |lines|
      ensures '\n' !in lines[k]
    {
      if k < |args| {
        assert lines[k] == args[k];
      } else if k == |args| {
        assert lines[k] == "-execute" == ['-', 'e', 'x', 'e', 'c', 'u', 't', 'e'];
      } else {
        assert lines[k] == "";
      }
    }
  }

  /** A trailing `-execute\n` joins like a `-execute` line followed by an
      empty one. */
  lemma ExecuteText(args: seq<string>)
    ensures JoinWith("\n", args + ["-execute\n"]) == JoinWith("\n", args + ["-execute", ""])
  {
    var text := JoinWith("\n", args + ["-execute\n"]);
    var lines := args + ["-execute", ""];
    assert "-execute\n" == "-execute" + "\n" + "";
    if args == [] {
      assert text == "-execute\n";
      assert JoinWith("\n", lines) == "-execute" + "\n" + "";
    } else {
      var head := JoinWith("\n", args);
      JoinSnoc("\n", args, "-execute\n");
      assert text == head + "\n" + "-execute\n";
      JoinSnoc("\n", args, "-execute");
      assert lines == (args + ["-execute"]) + [""];
      JoinSnoc("\n", args + ["-execute"], "");
      assert JoinWith("\n", lines) == head + "\n" + "-execute" + "\n" + "";
    }
  }

  /** The shutdown string is the two lines `-stay_open` and `False`. */
  lemma ShutdownLines()
    ensures SplitOn(Shutdown, '\n') == ["-stay_open", "False", ""]
  {
    assert Shutdown == JoinWith("\n", ["-stay_open", "False", ""]);
    assert "-stay_open" == ['-', 's', 't', 'a', 'y', '_', 'o', 'p', 'e', 'n'];
    assert "False" == ['F', 'a', 'l', 's', 'e'];
    SplitJoin(["-stay_open", "False", ""], '\n');
  }

  class ExifTool {
    const executable: string
    /** The command line of the process `__enter__` started; empty before. */
    var launched: seq<string>
    /** Everything written to the process's standard input so far. */
    var stdin: string
    /** The chunks the process has printed and the script has not read yet. */
    var pending: seq<string>

    constructor (executable: string := DefaultExecutable)
      ensures this.executable == executable && launched == [] && stdin == "" && pending == []
    {
      this.executable := executable;
      launched := [];
      stdin := "";
      pending := [];
    }

    predicate Started()
      reads this
    {
      launched != []
    }

    /** `__enter__`: start exiftool in stay-open mode, reading arguments from
        standard input; `output` is what that process will print. */
    method Enter(output: seq<string>)
      modifies this
      ensures launched == [executable, "-stay_open", "True", "-@", "-"]
      ensures stdin == old(stdin) && pending == output
    {
      launched := [executable, "-stay_open", "True", "-@", "-"];
      pending := output;
    }

    /** `__exit__`: ask the process to leave stay-open mode. */
    method Exit()
      modifies this
      ensures stdin == old(stdin) + Shutdown
      ensures launched == old(launched) && pending == old(pending)
    {
      stdin := stdin + Shutdown;
    }

    /** `execute(*args)`: write the command, then read the reply. */
    method Execute(args: seq<string>) returns (reply: Option<string>)
      requires Started()
      modifies this
      ensures launched == old(launched) && stdin == old(stdin) + Command(args)
      ensures reply.Some? <==> ReplyEnd(old(pending)).Some?
      ensures reply.Some? ==>
        var n := ReplyEnd(old(pending)).value;
        reply.value + Sentinel == Concat(old(pending)[..n]) && pending == old(pending)[n..]
      ensures reply.None? ==> pending == []
    {
      stdin := stdin + Command(args);
      var used;
      reply, used := ReadUntilSentinel(pending);
      pending := pending[used..];
    }

    /** `read_metadata(*filenames)`, up to the JSON decoding of the reply. */
    method ReadMetadata(filenames: seq<string>) returns (reply: Option<string>)
      requires Started()
      modifies this
      ensures launched == old(launched) && stdin == old(stdin) + Command(ReadArgs(filenames))
      ensures reply.Some? <==> ReplyEnd(old(pending)).Some?
      ensures reply.Some? ==>
        var n := ReplyEnd(old(pending)).value;
        reply.value + Sentinel == Concat(old(pending)[..n]) && pending == old(pending)[n..]
      ensures reply.None? ==> pending == []
    {
      reply := Execute(ReadArgs(filenames));
    }

    /** `read_time_metadata(*filenames)`, up to the JSON decoding of the reply. */
    method ReadTimeMetadata(filenames: seq<string>) returns (reply: Option<string>)
      requires Started()
      modifies this
      ensures launched == old(launched) && stdin == old(stdin) + Command(ReadTimeArgs(filenames))
      ensures reply.Some? <==> ReplyEnd(old(pending)).Some?
      ensures reply.Some? ==>
        var n := ReplyEnd(old(pending)).value;
        reply.value + Sentinel == Concat(old(pending)[..n]) && pending == old(pending)[n..]
      ensures reply.None? ==> pending == []
    {
      reply := Execute(ReadTimeArgs(filenames));
    }

    /** `write_metadata(filename, tags)`; the reply is discarded. */
    method WriteMetadata(filename: string, tags: seq<(string, string)>)
      requires Started()
      modifies this
      ensures launched == old(launched) && stdin == old(stdin) + Command(WriteArgs(filename, tags))
      ensures ReplyEnd(old(pending)).Some? ==> pending == old(pending)[ReplyEnd(old(pending)).value..]
      ensures ReplyEnd(old(pending)).None? ==> pending == []
    {
      var _ := Execute(WriteArgs(filename, tags));
    }
  }
}
