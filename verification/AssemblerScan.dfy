/**
  The chunked search for assembler directives that read files. The reader hands
  over the stream in pieces of any size; a window carries the tail of what was
  searched so that a directive split between two pieces is still found.
 */
module AssemblerScan {
  import opened Cache

  type Byte = b: int | 0 <= b < 256
  type Bytes = seq<Byte>

  /** ".include", ".incbin" and ".sinclude". */
  const DIRECTIVES: seq<Bytes> := [
    [46, 105, 110, 99, 108, 117, 100, 101],
    [46, 105, 110, 99, 98, 105, 110],
    [46, 115, 105, 110, 99, 108, 117, 100, 101]]

  function ToLower(b: Byte): Byte { if 65 <= b <= 90 then b + 32 else b }

  function ToUpper(b: Byte): Byte { if 97 <= b <= 122 then b - 32 else b }

  predicate EqIgnoreCase(a: Bytes, b: Bytes)
  {
    |a| == |b| && forall k :: 0 <= k < |a| ==> ToLower(a[k]) == ToLower(b[k])
  }

  /** A directive: a dot, then a lower-case letter to search for. */
  predicate IsNeedle(n: Bytes) { |n| >= 2 && 97 <= n[1] <= 122 }

  predicate OccursAt(s: Bytes, n: Bytes, k: nat) { k + |n| <= |s| && EqIgnoreCase(s[k..k + |n|], n) }

  /** The plain question: does the text hold one of the directives, in any case? */
  ghost predicate Holds(s: Bytes, needles: seq<Bytes>)
  {
    exists j: nat, k: nat :: j < |needles| && OccursAt(s, needles[j], k)
  }

  /** What the reader delivers before it ends; an empty read is the end of the file. */
  function Stream(pieces: seq<Bytes>): Bytes
  {
    if pieces == [] || pieces[0] == [] then [] else pieces[0] + Stream(pieces[1..])
  }

  lemma LetterFollowsDot(s: Bytes, needle: Bytes, k: nat)
    requires IsNeedle(needle) && OccursAt(s, needle, k)
    ensures s[k + 1] == needle[1] || s[k + 1] == ToUpper(needle[1])
  {
    assert s[k..k + |needle|][1] == s[k + 1];
  }

  /** Look for one directive by its second byte, as the two-byte search does. */
  method FindNeedle(window: Bytes, needle: Bytes) returns (found: bool)
    requires IsNeedle(needle)
    ensures found <==> exists k: nat :: OccursAt(window, needle, k)
  {
    for offset := 0 to |window|
      invariant forall k: nat :: k + 1 < offset ==> !OccursAt(window, needle, k)
    {
      if (window[offset] == needle[1] || window[offset] == ToUpper(needle[1])) && offset >= 1 {
        var start := offset - 1;
        if start + |needle| <= |window| && EqIgnoreCase(window[start..start + |needle|], needle) {
          assert OccursAt(window, needle, start);
          return true;
        }
      }
      if offset >= 1 && OccursAt(window, needle, offset - 1) {
        LetterFollowsDot(window, needle, offset - 1);
      }
    }
    return false;
  }

  method FindAny(window: Bytes, needles: seq<Bytes>) returns (found: bool)
    requires forall j :: 0 <= j < |needles| ==> IsNeedle(needles[j])
    ensures found <==> Holds(window, needles)
  {
    for j := 0 to |needles|
      invariant forall i: nat, k: nat :: i < j ==> !OccursAt(window, needles[i], k)
    {
      var here := FindNeedle(window, needles[j]);
      if here {
        return true;
      }
    }
    return false;
  }

  /** The last bytes of what was searched, one fewer than the longest directive. */
  ghost predicate IsTail(window: Bytes, searched: Bytes, keep: nat)
  {
    && |window| == (if |searched| < keep then |searched| else keep)
    && window == searched[|searched| - |window|..]
  }

  lemma OccurrenceShift(before: Bytes, s: Bytes, n: Bytes, k: nat)
    ensures OccursAt(s, n, k) ==> OccursAt(before + s, n, |before| + k)
    ensures k >= |before| && OccursAt(before + s, n, k) ==> OccursAt(s, n, k - |before|)
  {
    if k + |n| <= |s| {
      assert (before + s)[|before| + k..|before| + k + |n|] == s[k..k + |n|];
    }
    if k >= |before| && k + |n| <= |before| + |s| {
      assert (before + s)[k..k + |n|] == s[k - |before|..k - |before| + |n|];
    }
  }

  /** An occurrence in the extended text is in the part searched before, or in the window and the new piece. */
  lemma WindowSuffices(searched: Bytes, window: Bytes, chunk: Bytes, needles: seq<Bytes>, keep: nat)
    requires IsTail(window, searched, keep)
    requires forall j :: 0 <= j < |needles| ==> |needles[j]| <= keep + 1
    requires !Holds(searched, needles)
    ensures Holds(window + chunk, needles) <==> Holds(searched + chunk, needles)
  {
    var before := searched[..|searched| - |window|];
    assert searched + chunk == before + (window + chunk);
    if Holds(window + chunk, needles) {
      var j: nat, k: nat :| j < |needles| && OccursAt(window + chunk, needles[j], k);
      OccurrenceShift(before, window + chunk, needles[j], k);
    }
    if Holds(searched + chunk, needles) {
      var j: nat, k: nat :| j < |needles| && OccursAt(searched + chunk, needles[j], k);
      if k + |needles[j]| <= |searched| {
        assert (searched + chunk)[k..k + |needles[j]|] == searched[k..k + |needles[j]|];
        assert OccursAt(searched, needles[j], k);
      }
      OccurrenceShift(before, window + chunk, needles[j], k);
    }
  }

  /** Appending a piece and dropping all but the last bytes keeps the window a tail. */
  lemma DrainKeepsTail(searched: Bytes, window: Bytes, chunk: Bytes, keep: nat)
    requires IsTail(window, searched, keep)
    ensures var wide := window + chunk;
            IsTail(wide[if |wide| < keep then 0 else |wide| - keep..], searched + chunk, keep)
  {
    var wide := window + chunk;
    var before := searched[..|searched| - |window|];
    assert searched + chunk == before + wide;
    var drop := if |wide| < keep then 0 else |wide| - keep;
    assert (before + wide)[|before| + drop..] == wide[drop..];
  }

  /** What is left of the stream after one more read. */
  lemma StreamSplit(searched: Bytes, pieces: seq<Bytes>, i: nat)
    requires i < |pieces|
    ensures pieces[i] == [] ==> searched + Stream(pieces[i..]) == searched
    ensures pieces[i] != [] ==> searched + Stream(pieces[i..]) == (searched + pieces[i]) + Stream(pieces[i + 1..])
  {
    assert pieces[i..][1..] == pieces[i + 1..];
  }

  /** One round of the read loop: extend the window, search it, drain all but the carry-over. */
  method ScanPiece(window: Bytes, piece: Bytes, needles: seq<Bytes>, keepLast: nat, ghost searched: Bytes)
    returns (found: bool, carried: Bytes)
    requires forall j :: 0 <= j < |needles| ==> IsNeedle(needles[j]) && |needles[j]| <= keepLast + 1
    requires IsTail(window, searched, keepLast) && !Holds(searched, needles)
    ensures found <==> Holds(searched + piece, needles)
    ensures IsTail(carried, searched + piece, keepLast)
  {
    WindowSuffices(searched, window, piece, needles, keepLast);
    DrainKeepsTail(searched, window, piece, keepLast);
    carried := window + piece;
    found := FindAny(carried, needles);
    var keep := if |carried| < keepLast then 0 else |carried| - keepLast;
    carried := carried[keep..];
  }

  predicate AllNonEmpty(pieces: seq<Bytes>) { forall i :: 0 <= i < |pieces| ==> pieces[i] != [] }

  /** The read loop: whether a directive was found, and otherwise whether an empty read ended it. */
  method ScanReads(pieces: seq<Bytes>, needles: seq<Bytes>, keepLast: nat) returns (found: bool, ended: bool)
    requires forall j :: 0 <= j < |needles| ==> IsNeedle(needles[j]) && |needles[j]| <= keepLast + 1
    ensures found <==> Holds(Stream(pieces), needles)
    ensures !found ==> (ended <==> !AllNonEmpty(pieces))
  {
    var window: Bytes := [];
    ghost var searched: Bytes := [];
    assert pieces[0..] == pieces && [] + Stream(pieces) == Stream(pieces);
    for i := 0 to |pieces|
      invariant Stream(pieces) == searched + Stream(pieces[i..])
      invariant IsTail(window, searched, keepLast) && !Holds(searched, needles)
      invariant forall j :: 0 <= j < i ==> pieces[j] != []
    {
      StreamSplit(searched, pieces, i);
      if pieces[i] == [] {
        return false, true;
      }
      found, window := ScanPiece(window, pieces[i], needles, keepLast, searched);
      searched := searched + pieces[i];
      if found {
        HoldsInLonger(searched, Stream(pieces[i + 1..]), needles);
        return true, false;
      }
    }
    assert searched + [] == searched;
    return false, false;
  }

  /**
    `contains_assembler_input_directive`: true exactly when the whole stream
    holds a directive, however the reads split it. `fails` is a read error after
    the given reads, which only matters when nothing was found before it.
   */
  method Scan(pieces: seq<Bytes>, fails: bool, needles: seq<Bytes>, longest: nat) returns (r: Result<bool, ()>)
    requires forall j :: 0 <= j < |needles| ==> IsNeedle(needles[j]) && |needles[j]| <= longest
    ensures Holds(Stream(pieces), needles) ==> r == Ok(true)
    ensures !Holds(Stream(pieces), needles) ==> r == if fails && AllNonEmpty(pieces) then Err(()) else Ok(false)
  {
    var keepLast := if longest == 0 then 0 else longest - 1;
    var found, ended := ScanReads(pieces, needles, keepLast);
    return if found then Ok(true) else if fails && !ended then Err(()) else Ok(false);
  }

  lemma HoldsInLonger(s: Bytes, more: Bytes, needles: seq<Bytes>)
    requires Holds(s, needles)
    ensures Holds(s + more, needles)
  {
    var j: nat, k: nat :| j < |needles| && OccursAt(s, needles[j], k);
    assert (s + more)[k..k + |needles[j]|] == s[k..k + |needles[j]|];
    assert OccursAt(s + more, needles[j], k);
  }

  /** The scan with the real directives: nine bytes is the longest, so eight are carried over. */
  method ContainsAssemblerInputDirective(pieces: seq<Bytes>, fails: bool) returns (r: Result<bool, ()>)
    ensures r == if Holds(Stream(pieces), DIRECTIVES) then Ok(true)
                 else if fails && AllNonEmpty(pieces) then Err(()) else Ok(false)
  {
    r := Scan(pieces, fails, DIRECTIVES, 9);
  }

  /** The directive stands at `k`, each letter of it in either case. */
  ghost predicate SpelledAt(s: Bytes, directive: Bytes, k: nat)
  {
    && k + |directive| <= |s|
    && forall i :: 0 <= i < |directive| ==>
         s[k + i] == directive[i] || (97 <= directive[i] <= 122 && s[k + i] == directive[i] - 32)
  }

  /** What is found are the directives in any mixture of cases, and nothing else. */
  lemma DirectivesInAnyCase(s: Bytes)
    ensures Holds(s, DIRECTIVES) <==> exists j: nat, k: nat :: j < 3 && SpelledAt(s, DIRECTIVES[j], k)
  {
    forall j: nat, k: nat | j < 3 ensures OccursAt(s, DIRECTIVES[j], k) <==> SpelledAt(s, DIRECTIVES[j], k) {
      EitherCase(s, DIRECTIVES[j], k);
    }
  }

  lemma EitherCase(s: Bytes, directive: Bytes, k: nat)
    requires forall i :: 0 <= i < |directive| ==> directive[i] == 46 || 97 <= directive[i] <= 122
    ensures OccursAt(s, directive, k) <==> SpelledAt(s, directive, k)
  {
    if k + |directive| <= |s| {
      var text := s[k..k + |directive|];
      assert forall i :: 0 <= i < |directive| ==> text[i] == s[k + i];
      assert forall i :: 0 <= i < |directive| ==>
        (ToLower(text[i]) == ToLower(directive[i]) <==>
         text[i] == directive[i] || (97 <= directive[i] <= 122 && text[i] == directive[i] - 32));
    }
  }
}
