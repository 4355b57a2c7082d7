/**
 * JSON Lines export: the records' serialisations joined with "\n", and the reader that
 * splits the export back into lines with Python's str.splitlines().
 * The serialiser itself (json.dumps) is a parameter of the model.
 */
module JsonLines {
  import opened Records

  /** The characters at which str.splitlines() ends a line. */
  predicate IsLineBoundary(c: char)
  {
    || c == '\n' || c == '\r'
    || c as int == 0x0B || c as int == 0x0C
    || c as int == 0x1C || c as int == 0x1D || c as int == 0x1E
    || c as int == 0x85 || c as int == 0x2028 || c as int == 0x2029
  }

  /**
   * A nonempty text without line boundaries: what json.dumps yields for a record,
   * since it escapes every control character and, by default, every non-ASCII one.
   */
  predicate IsLine(s: string)
  {
    |s| > 0 && forall i :: 0 <= i < |s| ==> !IsLineBoundary(s[i])
  }

  /** The parts with one newline between each two neighbours. */
  function Join(parts: seq<string>): string
    decreases |parts|
  {
    if |parts| == 0 then ""
    else if |parts| == 1 then parts[0]
    else parts[0] + "\n" + Join(parts[1..])
  }

  /** The position of the first line boundary in s, or |s| when there is none. */
  function FirstBoundary(s: string): (k: nat)
    ensures k <= |s|
    ensures forall i :: 0 <= i < k ==> !IsLineBoundary(s[i])
    ensures k < |s| ==> IsLineBoundary(s[k])
    decreases |s|
  {
    if s == [] || IsLineBoundary(s[0]) then 0 else 1 + FirstBoundary(s[1..])
  }

  /**
   * str.splitlines(): the text between boundaries, "\r\n" counting as one boundary;
   * a final boundary does not open another line, and "" has no lines.
   */
  function SplitLines(s: string): seq<string>
    decreases |s|
  {
    if s == [] then []
    else
      var k := FirstBoundary(s);
      if k == |s| then [s]
      else
        var width := if s[k] == '\r' && k + 1 < |s| && s[k + 1] == '\n' then 2 else 1;
        [s[..k]] + SplitLines(s[k + width..])
  }

  /** The per-record serialisations, in record order. */
  function Serialised(data: seq<Record>, dumps: Record -> string): seq<string>
  {
    seq(|data|, i requires 0 <= i < |data| => dumps(data[i]))
  }

  /** convert_to_jsonl: one serialised record per line. */
  function ConvertToJsonl(data: seq<Record>, dumps: Record -> string): string
  {
    Join(Serialised(data, dumps))
  }

  /** A line followed by "\n" ends exactly at the newline. */
  lemma FirstBoundaryAfterLine(p: string, rest: string)
    requires IsLine(p)
    ensures FirstBoundary(p + "\n" + rest) == |p|
  {
    var s := p + "\n" + rest;
    var k := FirstBoundary(s);
    assert s[|p|] == '\n';
    assert forall i :: 0 <= i < |p| ==> s[i] == p[i];
  }

  /** Splitting the join of boundary-free, nonempty lines gives them back. */
  lemma {:induction false} SplitJoin(parts: seq<string>)
    requires forall i :: 0 <= i < |parts| ==> IsLine(parts[i])
    ensures SplitLines(Join(parts)) == parts
    decreases |parts|
  {
    if |parts| == 1 {
      var p := parts[0];
      assert FirstBoundary(p) == |p|;
    } else if |parts| > 1 {
      var p, rest := parts[0], Join(parts[1..]);
      var s := p + "\n" + rest;
      FirstBoundaryAfterLine(p, rest);
      assert s[..|p|] == p;
      assert s[|p| + 1..] == rest;
      SplitJoin(parts[1..]);
      assert [p] + parts[1..] == parts;
    }
  }

  /**
   * Splitting the export as its consumer does recovers one serialisation per record,
   * in record order; no records give the empty text.
   */
  lemma JsonlRoundTrip(data: seq<Record>, dumps: Record -> string)
    requires forall i :: 0 <= i < |data| ==> IsLine(dumps(data[i]))
    ensures SplitLines(ConvertToJsonl(data, dumps)) == Serialised(data, dumps)
    ensures |SplitLines(ConvertToJsonl(data, dumps))| == |data|
    ensures data == [] ==> ConvertToJsonl(data, dumps) == ""
  {
    SplitJoin(Serialised(data, dumps));
  }
}
