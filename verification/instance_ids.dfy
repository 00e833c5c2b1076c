/** The `INSTANCE_IDS` configuration string and its parsing into an ordered
    list of instance identifiers: split on every comma, strip surrounding
    whitespace from each piece, drop the pieces that end up empty. Order and
    duplicates are kept. */
module InstanceIds {

  /** Python's `str.isspace` for a single character: the characters that a
      no-argument `str.strip()` removes. */
  predicate IsSpace(c: char) {
    || c == ' '
    || '\t' <= c <= '\r'                  // tab, line feed, vertical tab, form feed, carriage return
    || '\U{1C}' <= c <= '\U{1F}'          // file, group, record and unit separators
    || c == '\U{85}' || c == '\U{A0}'     // next line, no-break space
    || c == '\U{1680}'
    || '\U{2000}' <= c <= '\U{200A}'
    || c == '\U{2028}' || c == '\U{2029}'
    || c == '\U{202F}' || c == '\U{205F}' || c == '\U{3000}'
  }

  predicate AllSpace(s: string) {
    forall k :: 0 <= k < |s| ==> IsSpace(s[k])
  }

  /** A string with no comma in it (every piece `split(',')` returns). */
  predicate NoComma(s: string) {
    forall k :: 0 <= k < |s| ==> s[k] != ','
  }

  /** A string with no whitespace at either end (every string `strip` returns). */
  predicate IsStripped(s: string) {
    |s| > 0 ==> !IsSpace(s[0]) && !IsSpace(s[|s| - 1])
  }

  // ---------------------------------------------------------------------------
  // str.split(',')
  // ---------------------------------------------------------------------------

  /** `s.split(',')`: the maximal comma-free runs of `s`, in order. There is
      always at least one piece, and `k` commas give `k + 1` pieces, empty
      ones included. */
  function SplitOnComma(s: string): (pieces: seq<string>)
    ensures |pieces| >= 1
    ensures forall i :: 0 <= i < |pieces| ==> NoComma(pieces[i])
    decreases |s|
  {
    if |s| == 0 then [""]
    else
      var rest := SplitOnComma(s[1..]);
      if s[0] == ',' then [""] + rest
      else [[s[0]] + rest[0]] + rest[1..]
  }

  /** `','.join(pieces)`: the inverse of `SplitOnComma`. */
  function JoinWithComma(pieces: seq<string>): (s: string)
    requires |pieces| >= 1
    ensures |s| >= |pieces| - 1
  {
    if |pieces| == 1 then pieces[0]
    else pieces[0] + "," + JoinWithComma(pieces[1..])
  }

  /** Splitting loses nothing: joining the pieces back gives the input. */
  lemma {:induction false} JoinSplit(s: string)
    ensures JoinWithComma(SplitOnComma(s)) == s
    decreases |s|
  {
    if |s| > 0 {
      var rest := SplitOnComma(s[1..]);
      JoinSplit(s[1..]);
      if s[0] == ',' {
        assert SplitOnComma(s) == [""] + rest;
        assert ([""] + rest)[1..] == rest;
        assert s == "" + "," + s[1..];
      } else if |rest| == 1 {
        assert s == [s[0]] + s[1..];
      } else {
        assert JoinWithComma(rest) == rest[0] + "," + JoinWithComma(rest[1..]);
        var pieces := [[s[0]] + rest[0]] + rest[1..];
        assert pieces[1..] == rest[1..];
        assert s == [s[0]] + s[1..];
      }
    }
  }

  /** A comma-free string is a single piece. */
  lemma {:induction false} SplitNoComma(s: string)
    requires NoComma(s)
    ensures SplitOnComma(s) == [s]
    decreases |s|
  {
    if |s| > 0 {
      assert NoComma(s[1..]) by {
        forall k | 0 <= k < |s[1..]| ensures s[1..][k] != ',' {
          assert s[1..][k] == s[k + 1];
        }
      }
      SplitNoComma(s[1..]);
      assert s == [s[0]] + s[1..];
    }
  }

  /** A comma separates the pieces of what is before it from those after it. */
  lemma {:induction false} SplitAroundComma(a: string, b: string)
    ensures SplitOnComma(a + "," + b) == SplitOnComma(a) + SplitOnComma(b)
    decreases |a|
  {
    var s := a + "," + b;
    if |a| == 0 {
      assert s == "," + b;
      assert s[1..] == b;
    } else {
      assert s[0] == a[0];
      assert s[1..] == a[1..] + "," + b;
      SplitAroundComma(a[1..], b);
      var ra := SplitOnComma(a[1..]);
      var sb := SplitOnComma(b);
      var rs := SplitOnComma(s[1..]);
      assert rs == ra + sb;
      if a[0] == ',' {
        assert SplitOnComma(s) == [""] + rs;
        assert SplitOnComma(a) == [""] + ra;
      } else {
        assert SplitOnComma(s) == [[a[0]] + rs[0]] + rs[1..];
        assert SplitOnComma(a) == [[a[0]] + ra[0]] + ra[1..];
        assert rs[0] == ra[0];
        assert rs[1..] == ra[1..] + sb;
      }
    }
  }

  /** Splitting undoes joining, when no piece holds a comma. */
  lemma {:induction false} SplitJoin(pieces: seq<string>)
    requires |pieces| >= 1
    requires forall i :: 0 <= i < |pieces| ==> NoComma(pieces[i])
    ensures SplitOnComma(JoinWithComma(pieces)) == pieces
    decreases |pieces|
  {
    SplitNoComma(pieces[0]);
    if |pieces| > 1 {
      SplitJoin(pieces[1..]);
      SplitAroundComma(pieces[0], JoinWithComma(pieces[1..]));
      assert pieces == [pieces[0]] + pieces[1..];
    }
  }

  // ---------------------------------------------------------------------------
  // str.strip()
  // ---------------------------------------------------------------------------

  /** The end of the run of whitespace that starts at `i`. */
  function SpaceRunEnd(s: string, i: nat): (j: nat)
    requires i <= |s|
    ensures i <= j <= |s|
    ensures forall k :: i <= k < j ==> IsSpace(s[k])
    ensures j < |s| ==> !IsSpace(s[j])
    decreases |s| - i
  {
    if i < |s| && IsSpace(s[i]) then SpaceRunEnd(s, i + 1) else i
  }

  /** The start of the run of whitespace that ends at `j`, looking no further
      back than `lo`. */
  function SpaceRunStart(s: string, lo: nat, j: nat): (i: nat)
    requires lo <= j <= |s|
    ensures lo <= i <= j
    ensures forall k :: i <= k < j ==> IsSpace(s[k])
    ensures lo < i ==> !IsSpace(s[i - 1])
    decreases j - lo
  {
    if lo < j && IsSpace(s[j - 1]) then SpaceRunStart(s, lo, j - 1) else j
  }

  /** How much whitespace `strip` removes from the front of `s`. */
  function LeadingSpace(s: string): (n: nat)
    ensures n <= |s|
    ensures forall k :: 0 <= k < n ==> IsSpace(s[k])
    ensures n < |s| ==> !IsSpace(s[n])
  {
    SpaceRunEnd(s, 0)
  }

  /** `s.strip()`: what is left of `s` after removing whitespace from both
      ends. It is a slice of `s`, everything around the slice is whitespace,
      and the slice neither starts nor ends with whitespace. */
  function Strip(s: string): (r: string)
    ensures IsStripped(r)
    ensures LeadingSpace(s) + |r| <= |s|
    ensures r == s[LeadingSpace(s)..LeadingSpace(s) + |r|]
    ensures forall k :: 0 <= k < LeadingSpace(s) ==> IsSpace(s[k])
    ensures forall k :: LeadingSpace(s) + |r| <= k < |s| ==> IsSpace(s[k])
  {
    var a := SpaceRunEnd(s, 0);
    var b := SpaceRunStart(s, a, |s|);
    s[a..b]
  }

  /** Stripping leaves nothing exactly when the string is all whitespace. */
  lemma StripEmptyIffBlank(s: string)
    ensures Strip(s) == "" <==> AllSpace(s)
  {
  }

  /** A string with no whitespace at either end is its own strip. */
  lemma StripOfStripped(s: string)
    requires IsStripped(s)
    ensures Strip(s) == s
  {
    if |s| > 0 {
      assert SpaceRunEnd(s, 0) == 0;
      assert SpaceRunStart(s, 0, |s|) == |s|;
      assert s[0..|s|] == s;
    }
  }

  /** Stripping twice is stripping once. */
  lemma StripIdempotent(s: string)
    ensures Strip(Strip(s)) == Strip(s)
  {
    StripOfStripped(Strip(s));
  }

  // ---------------------------------------------------------------------------
  // The list comprehension over the split pieces
  // ---------------------------------------------------------------------------

  /** `[p.strip() for p in pieces if p.strip()]`: every kept id is
      non-empty and stripped. Order and duplicates: `KeepNonBlankAppend`;
      what is dropped: `KeepNonBlankEmptyIff`. */
  function KeepNonBlank(pieces: seq<string>): (ids: seq<string>)
    ensures |ids| <= |pieces|
    ensures forall i :: 0 <= i < |ids| ==> ids[i] != "" && IsStripped(ids[i])
    decreases |pieces|
  {
    if |pieces| == 0 then []
    else
      var head := Strip(pieces[0]);
      (if head == "" then [] else [head]) + KeepNonBlank(pieces[1..])
  }

  /** What every parsed identifier looks like: non-empty, no surrounding
      whitespace, no comma. */
  predicate IsCleanId(id: string) {
    id != "" && IsStripped(id) && NoComma(id)
  }

  /** The parsed `INSTANCE_IDS` list: `[p.strip() for p in raw.split(',') if p.strip()]`. */
  function ParseInstanceIds(raw: string): (ids: seq<string>)
    ensures forall i :: 0 <= i < |ids| ==> IsCleanId(ids[i])
  {
    var pieces := SplitOnComma(raw);
    KeepNonBlankClean(pieces);
    KeepNonBlank(pieces)
  }

  lemma {:induction false} KeepNonBlankClean(pieces: seq<string>)
    requires forall i :: 0 <= i < |pieces| ==> NoComma(pieces[i])
    ensures forall i :: 0 <= i < |KeepNonBlank(pieces)| ==> IsCleanId(KeepNonBlank(pieces)[i])
    decreases |pieces|
  {
    if |pieces| > 0 {
      KeepNonBlankClean(pieces[1..]);
      var head := Strip(pieces[0]);
      var front := if head == "" then [] else [head];
      var tl := KeepNonBlank(pieces[1..]);
      var ids := KeepNonBlank(pieces);
      assert ids == front + tl;
      if head != "" {
        var lead := LeadingSpace(pieces[0]);
        assert NoComma(head) by {
          forall k | 0 <= k < |head| ensures head[k] != ',' {
            assert head[k] == pieces[0][lead + k];
          }
        }
      }
      forall i | 0 <= i < |ids| ensures IsCleanId(ids[i]) {
        if i < |front| {
          assert ids[i] == head;
        } else {
          assert ids[i] == tl[i - |front|];
        }
      }
    }
  }

  lemma {:induction false} KeepNonBlankAppend(xs: seq<string>, ys: seq<string>)
    ensures KeepNonBlank(xs + ys) == KeepNonBlank(xs) + KeepNonBlank(ys)
    decreases |xs|
  {
    if |xs| == 0 {
      assert xs + ys == ys;
    } else {
      assert (xs + ys)[0] == xs[0];
      assert (xs + ys)[1..] == xs[1..] + ys;
      KeepNonBlankAppend(xs[1..], ys);
    }
  }

  /** Order and duplicates are kept: the ids of `a,b` are the ids of `a`
      followed by the ids of `b`. */
  lemma ParseAroundComma(a: string, b: string)
    ensures ParseInstanceIds(a + "," + b) == ParseInstanceIds(a) + ParseInstanceIds(b)
  {
    SplitAroundComma(a, b);
    KeepNonBlankAppend(SplitOnComma(a), SplitOnComma(b));
  }

  /** A comma-free string yields its stripped self, or nothing when blank. */
  lemma ParseSinglePiece(a: string)
    requires NoComma(a)
    ensures ParseInstanceIds(a) == if Strip(a) == "" then [] else [Strip(a)]
  {
    SplitNoComma(a);
    assert KeepNonBlank([a]) == (if Strip(a) == "" then [] else [Strip(a)]) + KeepNonBlank([]);
  }

  /** A string made only of commas and whitespace. */
  predicate OnlyCommasAndSpace(s: string) {
    forall k :: 0 <= k < |s| ==> s[k] == ',' || IsSpace(s[k])
  }

  /** Every piece is all whitespace. */
  predicate AllBlank(pieces: seq<string>) {
    forall i :: 0 <= i < |pieces| ==> AllSpace(pieces[i])
  }

  lemma {:induction false} KeepNonBlankEmptyIff(pieces: seq<string>)
    ensures KeepNonBlank(pieces) == [] <==> AllBlank(pieces)
    decreases |pieces|
  {
    if |pieces| > 0 {
      KeepNonBlankEmptyIff(pieces[1..]);
      StripEmptyIffBlank(pieces[0]);
      assert AllBlank(pieces) <==> AllSpace(pieces[0]) && AllBlank(pieces[1..]) by {
        assert forall i :: 0 < i < |pieces| ==> pieces[i] == pieces[1..][i - 1];
      }
    }
  }

  lemma AllBlankCons(p: string, ps: seq<string>)
    ensures AllBlank([p] + ps) <==> AllSpace(p) && AllBlank(ps)
  {
    var xs := [p] + ps;
    if AllSpace(p) && AllBlank(ps) {
      forall i | 0 <= i < |xs| ensures AllSpace(xs[i]) {
        if i > 0 { assert xs[i] == ps[i - 1]; }
      }
    }
    if AllBlank(xs) {
      assert xs[0] == p;
      forall i | 0 <= i < |ps| ensures AllSpace(ps[i]) {
        assert ps[i] == xs[i + 1];
      }
    }
  }

  lemma AllSpaceCons(c: char, s: string)
    ensures AllSpace([c] + s) <==> IsSpace(c) && AllSpace(s)
  {
    var t := [c] + s;
    if IsSpace(c) && AllSpace(s) {
      forall k | 0 <= k < |t| ensures IsSpace(t[k]) {
        if k > 0 { assert t[k] == s[k - 1]; }
      }
    }
    if AllSpace(t) {
      assert t[0] == c;
      forall k | 0 <= k < |s| ensures IsSpace(s[k]) {
        assert s[k] == t[k + 1];
      }
    }
  }

  lemma OnlyCommasAndSpaceCons(c: char, s: string)
    ensures OnlyCommasAndSpace([c] + s) <==> (c == ',' || IsSpace(c)) && OnlyCommasAndSpace(s)
  {
    var t := [c] + s;
    if OnlyCommasAndSpace(t) {
      assert t[0] == c;
      forall k | 0 <= k < |s| ensures s[k] == ',' || IsSpace(s[k]) {
        assert s[k] == t[k + 1];
      }
    }
  }

  lemma {:induction false} PiecesBlankIff(raw: string)
    ensures AllBlank(SplitOnComma(raw)) <==> OnlyCommasAndSpace(raw)
    decreases |raw|
  {
    if |raw| > 0 {
      var tail := raw[1..];
      PiecesBlankIff(tail);
      assert raw == [raw[0]] + tail;
      OnlyCommasAndSpaceCons(raw[0], tail);
      var rest := SplitOnComma(tail);
      assert rest == [rest[0]] + rest[1..];
      AllBlankCons(rest[0], rest[1..]);
      if raw[0] == ',' {
        assert SplitOnComma(raw) == [""] + rest;
        AllBlankCons("", rest);
      } else {
        var first := [raw[0]] + rest[0];
        assert SplitOnComma(raw) == [first] + rest[1..];
        AllBlankCons(first, rest[1..]);
        AllSpaceCons(raw[0], rest[0]);
      }
    }
  }

  /** The parsed list is empty exactly when the raw string holds nothing but
      commas and whitespace. */
  lemma ParseEmptyIff(raw: string)
    ensures ParseInstanceIds(raw) == [] <==> OnlyCommasAndSpace(raw)
  {
    KeepNonBlankEmptyIff(SplitOnComma(raw));
    PiecesBlankIff(raw);
  }

  /** Duplicates survive parsing: an id listed twice is parsed twice. */
  lemma DuplicatesKept(id: string)
    requires IsCleanId(id)
    ensures ParseInstanceIds(id + "," + id) == [id, id]
  {
    ParseAroundComma(id, id);
    ParseSinglePiece(id);
    StripOfStripped(id);
  }
}
