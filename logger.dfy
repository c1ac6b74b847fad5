/** The on-screen log panel, as the sequence of lines it shows. */
module Logger {

  /** The panel after `log(msg)`: a non-empty message becomes a new last line,
      an empty or absent one clears the panel. */
  function LogLines(lines: seq<string>, msg: string): (r: seq<string>)
    ensures msg != "" ==> |r| == |lines| + 1 && r[..|lines|] == lines && r[|lines|] == msg
    ensures msg == "" ==> r == []
  {
    if msg != "" then lines + [msg] else []
  }
}
