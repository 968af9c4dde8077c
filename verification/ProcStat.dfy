/** Reading a process's start time from `/proc/<pid>/stat` (`internal/server/peer.go`). */
module ProcStat {
  import opened Options
  import opened Widths
  import opened Text
  import opened Decimal

  // ----- strings.Fields, bytes.LastIndexByte and strconv.ParseUint

  /** The leading run of characters that are not white space. */
  function Word(s: string): (r: string)
    ensures |r| <= |s| && r == s[..|r|]
  {
    if s == "" || IsSpace(s[0]) then "" else [s[0]] + Word(s[1..])
  }

  function Fields(s: string): seq<string>
    decreases |s|
  {
    if s == "" then []
    else if IsSpace(s[0]) then Fields(s[1..])
    else [Word(s)] + Fields(s[|Word(s)|..])
  }

  function LastIndex(s: string, c: char): Option<nat> {
    if s == "" then None
    else if s[|s| - 1] == c then Some(|s| - 1)
    else LastIndex(s[..|s| - 1], c)
  }

  function ParseUint(s: string): Option<nat> {
    if s != "" && AllDigits(s) && Value(s) < TWO_64 then Some(Value(s)) else None
  }

  /** Field 22 sits at index 19 of the fields that follow the command name. */
  const START_TIME_INDEX := 22 - 3

  lemma LastIndexInRange(s: string, c: char)
    ensures LastIndex(s, c).Some? ==> LastIndex(s, c).value < |s|
  {
  }

  function StartTime(data: string): Option<nat> {
    var idx := LastIndex(data, ')');
    LastIndexInRange(data, ')');
    if idx.None? || idx.value + 2 >= |data| then None
    else
      var fields := Fields(data[idx.value + 2..]);
      if |fields| <= START_TIME_INDEX then None else ParseUint(fields[START_TIME_INDEX])
  }

  // ----- What the kernel writes

  /** A field as the kernel prints it: not empty, no white space, no closing parenthesis. */
  predicate IsField(f: string) {
    f != "" && ')' !in f && forall i :: 0 <= i < |f| ==> !IsSpace(f[i])
  }

  function Tail(fields: seq<string>): string {
    if fields == [] then "\n" else fields[0] + (if |fields| == 1 then "" else " ") + Tail(fields[1..])
  }

  /** The line for a process: its PID, its command name in parentheses, and the other fields. */
  function Line(pid: nat, comm: string, fields: seq<string>): string {
    Print(pid) + " (" + comm + ") " + Tail(fields)
  }

  lemma {:induction false} WordThen(f: string, rest: string)
    requires (forall i :: 0 <= i < |f| ==> !IsSpace(f[i])) && rest != "" && IsSpace(rest[0])
    ensures Word(f + rest) == f
  {
    if f == "" {
      assert f + rest == rest;
    } else {
      assert (f + rest)[1..] == f[1..] + rest;
      WordThen(f[1..], rest);
    }
  }

  lemma {:induction false} FieldsOfTail(fields: seq<string>)
    requires forall i :: 0 <= i < |fields| ==> IsField(fields[i])
    ensures Fields(Tail(fields)) == fields && ')' !in Tail(fields)
  {
    if fields == [] {
      assert Fields("\n"[1..]) == [];
    } else {
      var f, rest := fields[0], (if |fields| == 1 then "" else " ") + Tail(fields[1..]);
      assert Tail(fields) == f + rest;
      FieldsOfTail(fields[1..]);
      if |fields| == 1 {
        assert rest == Tail([]);
      } else {
        assert rest[1..] == Tail(fields[1..]);
      }
      assert IsField(f);
      WordThen(f, rest);
      assert (f + rest)[|f|..] == rest && (f + rest)[0] == f[0];
    }
  }

  lemma {:induction false} LastIndexBefore(s: string, tail: string, c: char)
    requires s != "" && s[|s| - 1] == c && c !in tail
    ensures LastIndex(s + tail, c) == Some(|s| - 1)
  {
    if tail == "" {
      assert s + tail == s;
    } else {
      var n := |tail| - 1;
      assert (s + tail)[..|s + tail| - 1] == s + tail[..n];
      assert tail[n] in tail;
      LastIndexBefore(s, tail[..n], c);
    }
  }

  /** Text with no command name in it, or with nothing after it, is an error. */
  lemma MalformedIsError(data: string, comm: string, last: string)
    requires |last| <= 1 && ')' !in last
    ensures ')' !in data ==> StartTime(data) == None
    ensures StartTime(comm + ")" + last) == None
  {
    if ')' !in data { NoIndex(data, ')'); }
    LastIndexBefore(comm + ")", last, ')');
  }

  lemma {:induction false} NoIndex(s: string, c: char)
    requires c !in s
    ensures LastIndex(s, c) == None
  {
    if s != "" { NoIndex(s[..|s| - 1], c); }
  }

  /** The field read is the twentieth after the last closing parenthesis and the one character that follows
      it, whatever that is. */
  lemma {:induction false} FieldAfterName(head: string, c: char, fields: seq<string>)
    requires c != ')' && forall i :: 0 <= i < |fields| ==> IsField(fields[i])
    ensures StartTime(head + ")" + [c] + Tail(fields)) == if |fields| <= 19 then None else ParseUint(fields[19])
  {
    var line, rest := head + ")" + [c] + Tail(fields), [c] + Tail(fields);
    FieldsOfTail(fields);
    assert line == (head + ")") + rest;
    LastIndexBefore(head + ")", rest, ')');
    assert line[|head| + 2..] == Tail(fields);
    assert Tail(fields) != "";
  }

  /** Whatever the command name contains, the line's start time is its field 22: with fewer fields, or a
      field 22 that is not a 64-bit decimal number, the result is an error and never some other field. */
  lemma StartTimeIsField22(pid: nat, comm: string, fields: seq<string>)
    requires forall i :: 0 <= i < |fields| ==> IsField(fields[i])
    ensures StartTime(Line(pid, comm, fields)) ==
            if |fields| <= 19 then None
            else if fields[19] != "" && AllDigits(fields[19]) && Value(fields[19]) < 0x1_0000_0000_0000_0000
            then Some(Value(fields[19]))
            else None
  {
    var head := Print(pid) + " (" + comm;
    assert Line(pid, comm, fields) == head + ")" + [' '] + Tail(fields);
    FieldAfterName(head, ' ', fields);
  }

  /** A start time the kernel prints is read back as it was. */
  lemma StartTimeRoundTrip(pid: nat, comm: string, fields: seq<string>, start: nat)
    requires (forall i :: 0 <= i < |fields| ==> IsField(fields[i])) && |fields| > 19
    requires start < TWO_64 && fields[19] == Print(start)
    ensures StartTime(Line(pid, comm, fields)) == Some(start)
  {
    StartTimeIsField22(pid, comm, fields);
    ValueOfPrint(start);
  }
}
