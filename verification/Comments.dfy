/** The three comment removers: the survey's and the snapshot's `strip_comments`, and the
    position-preserving `blank_comments`. All are instances of one classification of the
    characters of a line, carried from line to line by the nesting depth. */
module Comments {

  predicate Starts(line: string, a: char, b: char) {
    |line| >= 2 && line[0] == a && line[1] == b
  }

  function AllHidden(n: nat): (r: seq<bool>)
    ensures |r| == n && forall k :: 0 <= k < n ==> !r[k]
  {
    seq(n, k => false)
  }

  /** Which characters of a line are code, and the depth at its end. */
  function Mask(line: string, depth: nat): (r: (seq<bool>, nat))
    ensures |r.0| == |line|
    decreases |line|
  {
    if line == [] then ([], depth)
    else if Starts(line, '/', '-') then
      var rest := Mask(line[2..], depth + 1);
      ([false, false] + rest.0, rest.1)
    else if depth > 0 && Starts(line, '-', '/') then
      var rest := Mask(line[2..], depth - 1);
      ([false, false] + rest.0, rest.1)
    else if depth > 0 then
      var rest := Mask(line[1..], depth);
      ([false] + rest.0, rest.1)
    else if Starts(line, '-', '-') then
      (AllHidden(|line|), depth)
    else
      var rest := Mask(line[1..], depth);
      ([true] + rest.0, rest.1)
  }

  function Kept(line: string, mask: seq<bool>): string
    requires |mask| == |line|
  {
    if line == [] then [] else (if mask[0] then [line[0]] else []) + Kept(line[1..], mask[1..])
  }

  function Blanked(line: string, mask: seq<bool>): (r: string)
    requires |mask| == |line|
    ensures |r| == |line|
    ensures forall k :: 0 <= k < |line| ==> r[k] == if mask[k] then line[k] else ' '
  {
    seq(|line|, k requires 0 <= k < |line| => if mask[k] then line[k] else ' ')
  }

  /** The masks of consecutive lines. */
  function Masks(lines: seq<string>, depth: nat): (r: seq<seq<bool>>)
    ensures |r| == |lines| && forall k :: 0 <= k < |lines| ==> |r[k]| == |lines[k]|
  {
    if lines == [] then []
    else
      var m := Mask(lines[0], depth);
      [m.0] + Masks(lines[1..], m.1)
  }

  function Stripped(lines: seq<string>, depth: nat): (r: seq<string>)
    ensures |r| == |lines|
  {
    var masks := Masks(lines, depth);
    seq(|lines|, k requires 0 <= k < |lines| => Kept(lines[k], masks[k]))
  }

  function BlankedLines(lines: seq<string>, depth: nat): (r: seq<string>)
    ensures |r| == |lines| && forall k :: 0 <= k < |lines| ==> |r[k]| == |lines[k]|
  {
    var masks := Masks(lines, depth);
    seq(|lines|, k requires 0 <= k < |lines| => Blanked(lines[k], masks[k]))
  }

  // ----- the loops

  lemma {:induction false} KeptNothing(line: string, mask: seq<bool>)
    requires |mask| == |line| && forall k :: 0 <= k < |line| ==> !mask[k]
    ensures Kept(line, mask) == []
  {
    if line == [] {
    } else {
      KeptNothing(line[1..], mask[1..]);
    }
  }

  lemma KeptStep(line: string, depth: nat)
    requires line != []
    ensures var k := Kept(line, Mask(line, depth).0);
            && (Starts(line, '/', '-') ==>
                 k == Kept(line[2..], Mask(line[2..], depth + 1).0) &&
                     Mask(line, depth).1 == Mask(line[2..], depth + 1).1)
            && (depth > 0 && Starts(line, '-', '/') ==>
                 k == Kept(line[2..], Mask(line[2..], depth - 1).0) &&
                     Mask(line, depth).1 == Mask(line[2..], depth - 1).1)
            && (depth > 0 && !Starts(line, '/', '-') && !Starts(line, '-', '/') ==>
                 k == Kept(line[1..], Mask(line[1..], depth).0) && Mask(line, depth).1 == Mask(line[1..], depth).1)
            && (depth == 0 && !Starts(line, '/', '-') && !Starts(line, '-', '-') ==>
                 k == [line[0]] + Kept(line[1..], Mask(line[1..], depth).0) &&
                     Mask(line, depth).1 == Mask(line[1..], depth).1)
            && (depth == 0 && Starts(line, '-', '-') ==> k == [] && Mask(line, depth).1 == 0)
  {
    var m := Mask(line, depth).0;
    if Starts(line, '/', '-') || (depth > 0 && Starts(line, '-', '/')) {
      var next := if Starts(line, '/', '-') then depth + 1 else depth - 1;
      assert m[1..] == [false] + Mask(line[2..], next).0;
      assert line[1..][1..] == line[2..] && m[1..][1..] == Mask(line[2..], next).0;
    } else if depth > 0 || !Starts(line, '-', '-') {
      assert m[1..] == Mask(line[1..], depth).0;
    } else {
      KeptNothing(line, m);
    }
  }

  function Rest(line: string, i: nat, depth: nat): (r: (string, nat))
    requires i <= |line|
  {
    (Kept(line[i..], Mask(line[i..], depth).0), Mask(line[i..], depth).1)
  }

  /** One step of the scan, by position. */
  lemma StepAt(line: string, i: nat, depth: nat)
    requires i < |line|
    ensures var open, close, dashes := Starts(line[i..], '/', '-'), Starts(line[i..], '-', '/'),
            Starts(line[i..], '-', '-');
            && (open || close ==> i + 2 <= |line|)
            && (open ==> Rest(line, i, depth) == Rest(line, i + 2, depth + 1))
            && (depth > 0 && close ==> Rest(line, i, depth) == Rest(line, i + 2, depth - 1))
            && (depth > 0 && !open && !close ==> Rest(line, i, depth) == Rest(line, i + 1, depth))
            && (depth == 0 && !open && !dashes ==>
                 Rest(line, i, 0) == ([line[i]] + Rest(line, i + 1, 0).0, Rest(line, i + 1, 0).1))
            && (depth == 0 && dashes ==> Rest(line, i, 0) == ([], 0))
            && !(open && close)
  {
    var rest := line[i..];
    KeptStep(rest, depth);
    hide Mask, Kept;
    assert rest[1..] == line[i + 1..];
    if |rest| >= 2 { assert rest[2..] == line[i + 2..]; }
  }

  lemma RestEnds(line: string, depth: nat)
    ensures Rest(line, |line|, depth) == ([], depth)
    ensures Rest(line, 0, depth) == (Kept(line, Mask(line, depth).0), Mask(line, depth).1)
  {
    assert line[0..] == line && line[|line|..] == [];
  }

  method StripLine(line: string, depth0: nat) returns (keep: string, depth: nat)
    ensures keep == Kept(line, Mask(line, depth0).0) && depth == Mask(line, depth0).1
  {
    keep, depth := [], depth0;
    var i := 0;
    hide *;
    RestEnds(line, depth);
    while i < |line|
      invariant i <= |line|
      invariant Rest(line, 0, depth0).0 == keep + Rest(line, i, depth).0
      invariant Rest(line, 0, depth0).1 == Rest(line, i, depth).1
    {
      var rest := line[i..];
      StepAt(line, i, depth);
      if Starts(rest, '/', '-') {
        depth := depth + 1;
        i := i + 2;
      } else if depth > 0 && Starts(rest, '-', '/') {
        depth := depth - 1;
        i := i + 2;
      } else if depth == 0 && Starts(rest, '-', '-') {
        return;
      } else {
        if depth == 0 { keep := keep + [line[i]]; }
        i := i + 1;
      }
    }
    RestEnds(line, depth);
  }

  lemma StrippedStep(lines: seq<string>, depth: nat)
    requires lines != []
    ensures Stripped(lines, depth)
            == [Kept(lines[0], Mask(lines[0], depth).0)] + Stripped(lines[1..], Mask(lines[0], depth).1)
  {
    hide Mask, Kept;
    var masks := Masks(lines, depth);
    assert masks[1..] == Masks(lines[1..], Mask(lines[0], depth).1);
  }

  /** The survey's `strip_comments`. */
  method StripComments(lines: seq<string>) returns (out: seq<string>)
    ensures out == Stripped(lines, 0)
  {
    out := [];
    var depth := 0;
    assert lines[0..] == lines;
    for i := 0 to |lines|
      invariant Stripped(lines, 0) == out + Stripped(lines[i..], depth) && |out| == i
    {
      StrippedStep(lines[i..], depth);
      assert lines[i..][1..] == lines[i + 1..];
      var keep;
      keep, depth := StripLine(lines[i], depth);
      out := out + [keep];
    }
  }

  /** The snapshot's loop tests the two marks in the other order. */
  method SnapshotLine(line: string, depth0: nat) returns (keep: string, depth: nat)
    ensures keep == Kept(line, Mask(line, depth0).0) && depth == Mask(line, depth0).1
  {
    keep, depth := [], depth0;
    var i := 0;
    hide *;
    RestEnds(line, depth);
    while i < |line|
      invariant i <= |line|
      invariant Rest(line, 0, depth0).0 == keep + Rest(line, i, depth).0
      invariant Rest(line, 0, depth0).1 == Rest(line, i, depth).1
    {
      var rest := line[i..];
      StepAt(line, i, depth);
      if depth > 0 {
        if Starts(rest, '-', '/') {
          depth := depth - 1;
          i := i + 2;
        } else if Starts(rest, '/', '-') {
          depth := depth + 1;
          i := i + 2;
        } else {
          i := i + 1;
        }
      } else if Starts(rest, '/', '-') {
        depth := depth + 1;
        i := i + 2;
      } else if Starts(rest, '-', '-') {
        return;
      } else {
        keep := keep + [line[i]];
        i := i + 1;
      }
    }
    RestEnds(line, depth);
  }

  /** The snapshot's `strip_comments` computes the survey's function. */
  method SnapshotStrip(lines: seq<string>) returns (out: seq<string>)
    ensures out == Stripped(lines, 0)
  {
    out := [];
    var depth := 0;
    assert lines[0..] == lines;
    for i := 0 to |lines|
      invariant Stripped(lines, 0) == out + Stripped(lines[i..], depth) && |out| == i
    {
      StrippedStep(lines[i..], depth);
      assert lines[i..][1..] == lines[i + 1..];
      var keep;
      keep, depth := SnapshotLine(lines[i], depth);
      out := out + [keep];
    }
  }

  lemma MaskStep(line: string, depth: nat)
    requires line != []
    ensures var m := Mask(line, depth);
            && (Starts(line, '/', '-') ==>
                 m == ([false, false] + Mask(line[2..], depth + 1).0, Mask(line[2..], depth + 1).1))
            && (depth > 0 && Starts(line, '-', '/') ==>
                 m == ([false, false] + Mask(line[2..], depth - 1).0, Mask(line[2..], depth - 1).1))
            && (depth > 0 && !Starts(line, '/', '-') && !Starts(line, '-', '/') ==>
                 m == ([false] + Mask(line[1..], depth).0, Mask(line[1..], depth).1))
            && (depth == 0 && !Starts(line, '/', '-') && !Starts(line, '-', '-') ==>
                 m == ([true] + Mask(line[1..], depth).0, Mask(line[1..], depth).1))
            && (depth == 0 && Starts(line, '-', '-') ==> m == (AllHidden(|line|), 0))
  {
  }

  lemma MaskAt(line: string, i: nat, depth: nat, full: seq<bool>)
    requires i < |line| == |full| && full[i..] == Mask(line[i..], depth).0
    ensures var rest := line[i..];
            var open, close, dashes := Starts(rest, '/', '-'), Starts(rest, '-', '/'), Starts(rest, '-', '-');
            && (open || close ==> i + 2 <= |line|)
            && (open ==> !full[i] && !full[i + 1])
            && (open ==> full[i + 2..] == Mask(line[i + 2..], depth + 1).0)
            && (open ==> Mask(rest, depth).1 == Mask(line[i + 2..], depth + 1).1)
            && (depth > 0 && close ==> !full[i] && !full[i + 1])
            && (depth > 0 && close ==>
                 full[i + 2..] == Mask(line[i + 2..], depth - 1).0 &&
                     Mask(rest, depth).1 == Mask(line[i + 2..], depth - 1).1)
            && (!open && !(depth > 0 && close) && (depth > 0 || !dashes) ==> full[i] == (depth == 0))
            && (!open && !(depth > 0 && close) && (depth > 0 || !dashes) ==>
                 full[i + 1..] == Mask(line[i + 1..], depth).0 && Mask(rest, depth).1 == Mask(line[i + 1..], depth).1)
            && (depth == 0 && dashes ==> Mask(rest, depth).1 == 0 && forall k :: i <= k < |line| ==> !full[k])
  {
    var rest := line[i..];
    MaskStep(rest, depth);
    hide Mask;
    var m := Mask(rest, depth).0;
    assert forall k :: i <= k < |line| ==> full[k] == m[k - i];
    assert rest[1..] == line[i + 1..] && full[i + 1..] == m[1..];
    if |rest| >= 2 { assert rest[2..] == line[i + 2..] && full[i + 2..] == m[2..]; }
  }

  method BlankTail(buf: array<char>, i: nat)
    requires i <= buf.Length
    modifies buf
    ensures forall k :: 0 <= k < i ==> buf[k] == old(buf[k])
    ensures forall k :: i <= k < buf.Length ==> buf[k] == ' '
  {
    for j := i to buf.Length
      invariant forall k :: 0 <= k < i ==> buf[k] == old(buf[k])
      invariant forall k :: i <= k < j ==> buf[k] == ' '
    {
      buf[j] := ' ';
    }
  }

  lemma MaskEnds(line: string, depth: nat)
    ensures Mask(line[0..], depth) == Mask(line, depth) && Mask(line[|line|..], depth) == ([], depth)
    ensures Mask(line, depth).0[0..] == Mask(line, depth).0
  {
    assert line[0..] == line && line[|line|..] == [];
  }

  /** `blank_comments` on one line: the buffer starts as the line and comment characters
      are overwritten in place. */
  method BlankLine(line: string, depth0: nat) returns (buf: array<char>, depth: nat)
    ensures fresh(buf) && buf[..] == Blanked(line, Mask(line, depth0).0) && depth == Mask(line, depth0).1
  {
    hide Mask, Starts, Blanked;
    buf := new char[|line|](k requires 0 <= k < |line| => line[k]);
    depth := depth0;
    var i := 0;
    ghost var full := Mask(line, depth0).0;
    MaskEnds(line, depth0);
    while i < |line|
      invariant i <= |line| == buf.Length
      invariant full[i..] == Mask(line[i..], depth).0 && Mask(line, depth0).1 == Mask(line[i..], depth).1
      invariant forall k :: 0 <= k < i ==> buf[k] == if full[k] then line[k] else ' '
      invariant forall k :: i <= k < |line| ==> buf[k] == line[k]
    {
      hide *;
      var rest := line[i..];
      MaskAt(line, i, depth, full);
      if Starts(rest, '/', '-') {
        depth := depth + 1;
        buf[i], buf[i + 1] := ' ', ' ';
        i := i + 2;
      } else if depth > 0 && Starts(rest, '-', '/') {
        depth := depth - 1;
        buf[i], buf[i + 1] := ' ', ' ';
        i := i + 2;
      } else if depth > 0 {
        buf[i] := ' ';
        i := i + 1;
      } else if Starts(rest, '-', '-') {
        BlankTail(buf, i);
        return;
      } else {
        i := i + 1;
      }
    }
    MaskEnds(line, depth);
  }

  lemma BlankedStep(lines: seq<string>, depth: nat)
    requires lines != []
    ensures BlankedLines(lines, depth)
            == [Blanked(lines[0], Mask(lines[0], depth).0)] + BlankedLines(lines[1..], Mask(lines[0], depth).1)
  {
    hide Mask, Blanked;
    var masks := Masks(lines, depth);
    assert masks[1..] == Masks(lines[1..], Mask(lines[0], depth).1);
  }

  method BlankComments(lines: seq<string>) returns (out: seq<string>)
    ensures out == BlankedLines(lines, 0)
  {
    out := [];
    var depth := 0;
    assert lines[0..] == lines;
    for i := 0 to |lines|
      invariant BlankedLines(lines, 0) == out + BlankedLines(lines[i..], depth) && |out| == i
    {
      BlankedStep(lines[i..], depth);
      assert lines[i..][1..] == lines[i + 1..];
      var buf;
      buf, depth := BlankLine(lines[i], depth);
      out := out + [buf[..]];
    }
  }

  // ----- blanking again changes nothing

  /** Two neighbouring characters that begin a block comment or a line comment. */
  predicate MarkAt(text: string, k: nat)
    requires k + 1 < |text|
  {
    (text[k] == '/' || text[k] == '-') && text[k + 1] == '-'
  }

  predicate HasMark(text: string) {
    exists k :: 0 <= k < |text| - 1 && MarkAt(text, k)
  }

  /** A blanked line has no mark left: two neighbours that look like one were code in the
      line too, and code never contains a mark. */
  lemma {:induction false} NoMarkIsCode(line: string, depth: nat, k: nat)
    requires k + 1 < |line|
    ensures var b := Blanked(line, Mask(line, depth).0);
            !MarkAt(b, k)
    decreases |line|
  {
    var m := Mask(line, depth).0;
    MaskStep(line, depth);
    hide Mask;
    if Starts(line, '/', '-') || (depth > 0 && Starts(line, '-', '/')) {
      var next := if Starts(line, '/', '-') then depth + 1 else depth - 1;
      if k >= 2 {
        NoMarkIsCode(line[2..], next, k - 2);
        assert m[k] == Mask(line[2..], next).0[k - 2] && m[k + 1] == Mask(line[2..], next).0[k - 1];
      } else {
        assert !m[k];
      }
    } else if depth > 0 || !Starts(line, '-', '-') {
      if k >= 1 {
        NoMarkIsCode(line[1..], depth, k - 1);
        assert m[k] == Mask(line[1..], depth).0[k - 1] && m[k + 1] == Mask(line[1..], depth).0[k];
      } else {
        assert m[0] ==> !Starts(line, '/', '-') && !Starts(line, '-', '-');
      }
    }
  }

  /** A text without marks is all code at depth 0. */
  lemma {:induction false} NoMarksAllCode(line: string)
    requires !HasMark(line)
    ensures Mask(line, 0).1 == 0 && forall k :: 0 <= k < |line| ==> Mask(line, 0).0[k]
    decreases |line|
  {
    if line == [] {
    } else {
      assert |line| >= 2 ==> !MarkAt(line, 0);
      assert !Starts(line, '/', '-') && !Starts(line, '-', '-');
      assert line == [line[0]] + line[1..];
      HasMarkTail(line[0], line[1..]);
      NoMarksAllCode(line[1..]);
    }
  }

  /** Blanking is idempotent: the blanked text of a file is its own blanked text. */
  lemma BlankIdempotent(line: string, depth: nat)
    ensures var b := Blanked(line, Mask(line, depth).0);
            Mask(b, 0).1 == 0 && Blanked(b, Mask(b, 0).0) == b
  {
    var b := Blanked(line, Mask(line, depth).0);
    forall k | 0 <= k < |b| - 1 ensures !MarkAt(b, k) { NoMarkIsCode(line, depth, k); }
    NoMarksAllCode(b);
  }

  lemma {:induction false} BlankLinesIdempotent(lines: seq<string>, depth: nat)
    ensures BlankedLines(BlankedLines(lines, depth), 0) == BlankedLines(lines, depth)
    decreases |lines|
  {
    if lines == [] {
    } else {
      BlankedStep(lines, depth);
      BlankIdempotent(lines[0], depth);
      var b := BlankedLines(lines, depth);
      BlankedStep(b, 0);
      BlankLinesIdempotent(lines[1..], Mask(lines[0], depth).1);
      assert b[1..] == BlankedLines(lines[1..], Mask(lines[0], depth).1);
    }
  }

  // ----- stripping again

  /** A kept slash or dash and a kept dash with nothing kept between them. */
  predicate JoinsAt(line: string, mask: seq<bool>, i: nat, j: nat)
    requires |mask| == |line|
  {
    && i < j < |line| && mask[i] && mask[j]
    && (line[i] == '/' || line[i] == '-') && line[j] == '-'
    && forall k :: i < k < j ==> !mask[k]
  }

  /** Closing up the gap left by a comment makes a new mark. */
  predicate Joins(line: string, mask: seq<bool>)
    requires |mask| == |line|
  {
    exists i, j :: 0 <= i < |line| && 0 <= j < |line| && JoinsAt(line, mask, i, j)
  }

  predicate FirstKeptDash(line: string, mask: seq<bool>, j: nat)
    requires |mask| == |line|
  {
    j < |line| && mask[j] && line[j] == '-' && forall k :: 0 <= k < j ==> !mask[k]
  }

  lemma KeptDashTail(line: string, mask: seq<bool>, j: nat)
    requires line != [] && |mask| == |line| && !mask[0]
    ensures FirstKeptDash(line, mask, j + 1) <==> FirstKeptDash(line[1..], mask[1..], j)
  {
    var m := mask[1..];
    assert forall k :: 0 <= k < |m| ==> m[k] == mask[k + 1];
    if FirstKeptDash(line[1..], m, j) {
      forall k | 0 <= k < j + 1 ensures !mask[k] { if k > 0 { assert !m[k - 1]; } }
    }
  }

  lemma {:induction false} FirstKept(line: string, mask: seq<bool>)
    requires |mask| == |line|
    ensures (Kept(line, mask) != [] && Kept(line, mask)[0] == '-') <==> exists j: nat :: FirstKeptDash(line, mask, j)
  {
    if line == [] {
    } else if mask[0] {
      assert line[0] == '-' ==> FirstKeptDash(line, mask, 0);
    } else {
      var t, m := line[1..], mask[1..];
      FirstKept(t, m);
      if j: nat :| FirstKeptDash(t, m, j) {
        KeptDashTail(line, mask, j);
        assert FirstKeptDash(line, mask, j + 1);
      }
      if j: nat :| FirstKeptDash(line, mask, j) {
        KeptDashTail(line, mask, j - 1);
        assert FirstKeptDash(t, m, j - 1);
      }
    }
  }

  lemma JoinsTail(line: string, mask: seq<bool>, i: nat, j: nat)
    requires line != [] && |mask| == |line|
    ensures JoinsAt(line[1..], mask[1..], i, j) <==> JoinsAt(line, mask, i + 1, j + 1)
    ensures JoinsAt(line, mask, 0, j + 1) <==>
              mask[0] && (line[0] == '/' || line[0] == '-') && FirstKeptDash(line[1..], mask[1..], j)
  {
    assert forall k :: 0 <= k < |line| - 1 ==> line[1..][k] == line[k + 1] && mask[1..][k] == mask[k + 1];
    if j + 1 < |line| {
      assert (forall k :: i < k < j ==> !mask[1..][k]) ==>
          forall k :: i + 1 < k < j + 1 ==> mask[k] == mask[1..][k - 1];
      assert (forall k :: 0 <= k < j ==> !mask[1..][k]) ==> forall k :: 0 < k < j + 1 ==> mask[k] == mask[1..][k - 1];
    }
  }

  lemma HasMarkTail(c: char, text: string)
    ensures HasMark([c] + text) <==> HasMark(text) || ((c == '/' || c == '-') && text != [] && text[0] == '-')
  {
    var whole := [c] + text;
    forall k: nat | k + 1 < |text| ensures MarkAt(text, k) == MarkAt(whole, k + 1) { }
    if text != [] { assert MarkAt(whole, 0) <==> (c == '/' || c == '-') && text[0] == '-'; }
    if HasMark(text) {
      var k :| 0 <= k < |text| - 1 && MarkAt(text, k);
      assert MarkAt(whole, k + 1);
    }
    if HasMark(whole) {
      var k :| 0 <= k < |whole| - 1 && MarkAt(whole, k);
      if k > 0 { assert MarkAt(text, k - 1); }
    }
  }

  lemma JoinsInside(line: string, mask: seq<bool>, i: nat, j: nat)
    requires |mask| == |line|
    ensures JoinsAt(line, mask, i, j) ==> i < j < |line|
  {
  }

  lemma JoinsHead(line: string, mask: seq<bool>)
    requires line != [] && |mask| == |line|
    ensures var first := mask[0] && (line[0] == '/' || line[0] == '-');
            var dash := exists j: nat :: FirstKeptDash(line[1..], mask[1..], j);
            Joins(line, mask) <==> Joins(line[1..], mask[1..]) || (first && dash)
  {
    hide FirstKeptDash, JoinsAt;
    var t, m := line[1..], mask[1..];
    if Joins(t, m) {
      var i, j :| 0 <= i < |t| && 0 <= j < |t| && JoinsAt(t, m, i, j);
      JoinsTail(line, mask, i, j);
      assert JoinsAt(line, mask, i + 1, j + 1);
    }
    if mask[0] && (line[0] == '/' || line[0] == '-') {
      if j: nat :| FirstKeptDash(t, m, j) {
        JoinsTail(line, mask, 0, j);
        JoinsInside(line, mask, 0, j + 1);
        assert JoinsAt(line, mask, 0, j + 1);
      }
    }
    if Joins(line, mask) {
      var i, j :| 0 <= i < |line| && 0 <= j < |line| && JoinsAt(line, mask, i, j);
      JoinsInside(line, mask, i, j);
      JoinsTail(line, mask, if i > 0 then i - 1 else 0, j - 1);
      if i > 0 { assert JoinsAt(t, m, i - 1, j - 1); }
    }
  }

  /** The stripped line has a mark exactly when the line joins. */
  lemma {:induction false} MarkIffJoins(line: string, mask: seq<bool>)
    requires |mask| == |line|
    ensures HasMark(Kept(line, mask)) <==> Joins(line, mask)
  {
    if line == [] {
    } else {
      var t, m := line[1..], mask[1..];
      MarkIffJoins(t, m);
      FirstKept(t, m);
      HasMarkTail(line[0], Kept(t, m));
      JoinsHead(line, mask);
      if !mask[0] { assert Kept(line, mask) == Kept(t, m); }
    }
  }

  lemma {:induction false} KeptAll(line: string, mask: seq<bool>)
    requires |mask| == |line|
    ensures |Kept(line, mask)| <= |line|
    ensures |Kept(line, mask)| == |line| <==> forall k :: 0 <= k < |line| ==> mask[k]
    ensures |Kept(line, mask)| == |line| ==> Kept(line, mask) == line
  {
    if line == [] {
    } else {
      KeptAll(line[1..], mask[1..]);
      if mask[0] && |Kept(line[1..], mask[1..])| == |line| - 1 {
        forall k | 0 <= k < |line| ensures mask[k] { if k > 0 { assert mask[1..][k - 1]; } }
      }
      if forall k :: 0 <= k < |line| ==> mask[k] {
        forall k | 0 <= k < |line[1..]| ensures mask[1..][k] { assert mask[k + 1]; }
      }
    }
  }

  /** A text without a mark, and no other, is its own stripped text; it leaves no comment
      open. */
  lemma OwnStrip(text: string)
    ensures Kept(text, Mask(text, 0).0) == text <==> !HasMark(text)
    ensures !HasMark(text) ==> Mask(text, 0).1 == 0
  {
    hide Mask, Kept;
    var mask := Mask(text, 0).0;
    KeptAll(text, mask);
    if HasMark(text) {
      var k :| 0 <= k < |text| - 1 && MarkAt(text, k);
      NoMarkIsCode(text, 0, k);
      assert Blanked(text, mask)[k] != text[k] || Blanked(text, mask)[k + 1] != text[k + 1];
    } else {
      NoMarksAllCode(text);
    }
  }

  /** Stripping a stripped line changes nothing exactly when the line does not join. */
  lemma StripAgain(line: string, depth: nat)
    ensures var mask := Mask(line, depth).0; var out := Kept(line, mask);
            Kept(out, Mask(out, 0).0) == out <==> !Joins(line, mask)
  {
    hide Mask, Kept;
    MarkIffJoins(line, Mask(line, depth).0);
    OwnStrip(Kept(line, Mask(line, depth).0));
  }

  lemma SameFromSecond(lines: seq<string>, masks: seq<seq<bool>>)
    requires |lines| == |masks| > 0 && forall n :: 0 <= n < |lines| ==> |masks[n]| == |lines[n]|
    requires !Joins(lines[0], masks[0])
    ensures (forall n :: 0 <= n < |lines| ==> !Joins(lines[n], masks[n]))
       <==> (forall n :: 0 <= n < |lines[1..]| ==> !Joins(lines[1..][n], masks[1..][n]))
  {
    hide Joins;
    if forall n :: 0 <= n < |lines[1..]| ==> !Joins(lines[1..][n], masks[1..][n]) {
      forall n | 0 <= n < |lines| ensures !Joins(lines[n], masks[n]) {
        if n > 0 { assert lines[1..][n - 1] == lines[n] && masks[1..][n - 1] == masks[n]; }
      }
    }
    if forall n :: 0 <= n < |lines| ==> !Joins(lines[n], masks[n]) {
      forall n | 0 <= n < |lines[1..]| ensures !Joins(lines[1..][n], masks[1..][n]) {
        assert lines[1..][n] == lines[n + 1] && masks[1..][n] == masks[n + 1];
      }
    }
  }

  /** Stripping a stripped text changes nothing exactly when none of its lines joins. */
  lemma {:induction false} StripIdempotentIff(lines: seq<string>, depth: nat)
    ensures Stripped(Stripped(lines, depth), 0) == Stripped(lines, depth)
       <==> forall n :: 0 <= n < |lines| ==> !Joins(lines[n], Masks(lines, depth)[n])
    decreases |lines|
  {
    hide Mask, Kept, Joins, Stripped;
    var outs, masks := Stripped(lines, depth), Masks(lines, depth);
    if lines == [] {
      assert Stripped(outs, 0) == outs;
    } else {
      var head, next := outs[0], Mask(lines[0], depth).1;
      StrippedStep(lines, depth);
      StripAgain(lines[0], depth);
      MarkIffJoins(lines[0], Mask(lines[0], depth).0);
      OwnStrip(head);
      StrippedStep(outs, 0);
      StripIdempotentIff(lines[1..], next);
      assert outs[1..] == Stripped(lines[1..], next);
      assert masks[0] == Mask(lines[0], depth).0 && masks[1..] == Masks(lines[1..], next);
      if !Joins(lines[0], masks[0]) {
        assert Stripped(outs, 0) == [head] + Stripped(outs[1..], 0);
        assert Stripped(outs, 0)[1..] == Stripped(outs[1..], 0);
        SameFromSecond(lines, masks);
      } else {
        assert Stripped(outs, 0)[0] != outs[0];
      }
    }
  }

  /** The shortest kind of line that joins, and what becomes of it. */
  lemma StripNotIdempotent()
    ensures var line := "//--/-";
            && Kept(line, Mask(line, 0).0) == "/-"
            && Kept("/-", Mask("/-", 0).0) == ""
  {
    var line := "//--/-";
    assert line[1..] == "/--/-" && "/--/-"[2..] == "-/-" && "-/-"[2..] == "-" && "-"[1..] == "";
    KeptStep(line, 0);
    KeptStep("/--/-", 0);
    KeptStep("-/-", 1);
    KeptStep("-", 0);
    KeptStep("/-", 0);
    assert "/-"[2..] == "";
  }
}
