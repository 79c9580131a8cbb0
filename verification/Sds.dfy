/** `sdsrange` of sds.c. An sds string is a sequence that the operations reassign. */
module Sds {
  import opened Bytes

  /** The inclusive range start..end, negative indexes counting from the end; an end before the string counts as 0. */
  function Range(s: bytes, start: int, end: int): bytes {
    var first := if start < 0 then (if |s| + start < 0 then 0 else |s| + start) else start;
    var last := if end < 0 then (if |s| + end < 0 then 0 else |s| + end) else end;
    var stop := if last + 1 > |s| then |s| else last + 1;
    if first < stop then s[first..stop] else []
  }

  method SdsRange(s: bytes, start: int, end: int) returns (r: bytes)
    ensures r == Range(s, start, end)
    ensures 0 <= start <= end < |s| ==> r == s[start..end + 1]
    ensures 0 <= start < |s| <= end ==> r == s[start..]
    ensures start >= |s| || (0 <= end < start) ==> r == []
    ensures -|s| <= start < 0 ==> r == Range(s, |s| + start, end)
    ensures start < -|s| ==> r == Range(s, 0, end)
    ensures -|s| <= end < 0 ==> r == Range(s, start, |s| + end)
    ensures end < -|s| ==> r == Range(s, start, 0)
  {
    var start, end, len := start, end, |s|;
    if len == 0 {
      return s;
    }
    if start < 0 {
      start := len + start;
      if start < 0 { start := 0; }
    }
    if end < 0 {
      end := len + end;
      if end < 0 { end := 0; }
    }
    var newlen := if start > end then 0 else end - start + 1;
    if newlen != 0 {
      if start >= len {
        newlen := 0;
      } else if end >= len {
        end := len - 1;
        newlen := if start > end then 0 else end - start + 1;
      }
    } else {
      start := 0;
    }
    r := if start != 0 && newlen != 0 then s[start..start + newlen] else s[..newlen];
  }

  /** Dropping the first n bytes, as the reader and the output buffer do with `sdsrange(s, n, -1)`. */
  lemma RangeDrops(s: bytes, n: nat)
    requires n <= |s|
    ensures Range(s, n, -1) == s[n..]
  {
  }
}
