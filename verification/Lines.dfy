/** Line and column splitting as `str.splitlines` and `str.split("\t")` do it
    (hub/collectors/gdelt.py, `parse_export`, `expand`). */
module Lines {
  /** Every character `splitlines` ends a line at, not only the newline. */
  predicate IsBreak(c: char) {
    (c as int) in {0x0A, 0x0B, 0x0C, 0x0D, 0x1C, 0x1D, 0x1E, 0x85, 0x2028, 0x2029}
  }

  predicate Unbroken(s: string) { forall i :: 0 <= i < |s| ==> !IsBreak(s[i]) }

  predicate TabFree(s: string) { forall i :: 0 <= i < |s| ==> s[i] != '\t' }

  predicate Separable(s: string) { Unbroken(s) && TabFree(s) }

  function FirstBreak(s: string): (n: nat)
    ensures n <= |s| && (n < |s| ==> IsBreak(s[n]))
    ensures forall i :: 0 <= i < n ==> !IsBreak(s[i])
  {
    if s == "" || IsBreak(s[0]) then 0 else 1 + FirstBreak(s[1..])
  }

  function FirstTab(s: string): (n: nat)
    ensures n <= |s| && (n < |s| ==> s[n] == '\t')
    ensures forall i :: 0 <= i < n ==> s[i] != '\t'
  {
    if s == "" || s[0] == '\t' then 0 else 1 + FirstTab(s[1..])
  }

  /** A carriage return and the newline after it are one break. */
  function SplitLines(s: string): seq<string>
    decreases |s|
  {
    if s == "" then []
    else
      var i := FirstBreak(s);
      if i == |s| then [s]
      else [s[..i]] + SplitLines(if s[i] == '\r' && i + 1 < |s| && s[i + 1] == '\n' then s[i + 2..] else s[i + 1..])
  }

  function Columns(s: string): (cols: seq<string>)
    ensures cols != []
    decreases |s|
  {
    var i := FirstTab(s);
    if i == |s| then [s] else [s[..i]] + Columns(s[i + 1..])
  }

  function Joined(cols: seq<string>): string
    requires cols != []
  {
    if |cols| == 1 then cols[0] else cols[0] + "\t" + Joined(cols[1..])
  }

  function Unlines(lines: seq<string>): string {
    if lines == [] then "" else lines[0] + "\n" + Unlines(lines[1..])
  }

  // ---------------------------------------------------------------- what is written splits back

  lemma {:induction false} LinesBack(lines: seq<string>)
    requires forall i :: 0 <= i < |lines| ==> Unbroken(lines[i])
    ensures SplitLines(Unlines(lines)) == lines
  {
    if lines == [] {
    } else {
      var line, rest := lines[0], Unlines(lines[1..]);
      var s := Unlines(lines);
      assert s == line + ("\n" + rest);
      assert s[|line|] == '\n' && s[..|line|] == line && s[|line| + 1..] == rest;
      forall i | 0 <= i < |line| ensures !IsBreak(s[i]) { assert s[i] == line[i]; }
      assert FirstBreak(s) == |line|;
      LinesBack(lines[1..]);
    }
  }

  lemma {:induction false} ColumnsBack(cols: seq<string>)
    requires cols != [] && forall i :: 0 <= i < |cols| ==> TabFree(cols[i])
    ensures Columns(Joined(cols)) == cols
  {
    var s, first := Joined(cols), cols[0];
    if |cols| == 1 {
      assert FirstTab(s) == |s|;
    } else {
      var rest := Joined(cols[1..]);
      assert s == first + ("\t" + rest);
      assert s[|first|] == '\t' && s[..|first|] == first && s[|first| + 1..] == rest;
      forall i | 0 <= i < |first| ensures s[i] != '\t' { assert s[i] == first[i]; }
      assert FirstTab(s) == |first|;
      ColumnsBack(cols[1..]);
    }
  }

  lemma {:induction false} JoinedUnbroken(cols: seq<string>)
    requires cols != [] && forall i :: 0 <= i < |cols| ==> Unbroken(cols[i])
    ensures Unbroken(Joined(cols))
  {
    if |cols| > 1 { JoinedUnbroken(cols[1..]); }
  }

  // ---------------------------------------------------------------- what is split is separable

  lemma {:induction false} SplitUnbroken(s: string)
    ensures forall i :: 0 <= i < |SplitLines(s)| ==> Unbroken(SplitLines(s)[i])
    decreases |s|
  {
    if s == "" {
    } else {
      var i := FirstBreak(s);
      if i < |s| {
        SplitUnbroken(if s[i] == '\r' && i + 1 < |s| && s[i + 1] == '\n' then s[i + 2..] else s[i + 1..]);
      }
    }
  }

  lemma {:induction false} ColumnsSeparable(s: string)
    requires Unbroken(s)
    ensures forall i :: 0 <= i < |Columns(s)| ==> Separable(Columns(s)[i])
    decreases |s|
  {
    var i := FirstTab(s);
    if i < |s| { ColumnsSeparable(s[i + 1..]); }
  }
}
