/** The string and path helpers of Termometros/Root/make_tuple.C: trimming,
    the wildcard test, the comma-separated input list, path joining, base
    names, and the automatic output name built from the dates in the input
    file names. */
module MakeTuple {
  import opened Common
  import opened CText

  /** `trim_copy`: s without its leading and trailing white space, taken off
      one character at a time. */
  function Trim(s: string): (t: string)
    ensures |t| <= |s|
    decreases |s|
  {
    if s != [] && IsSpace(s[0]) then Trim(s[1..])
    else if s != [] && IsSpace(s[|s| - 1]) then Trim(s[..|s| - 1])
    else s
  }

  /** Where the trimmed text of s starts: after its leading white space. */
  function TrimStart(s: string): (a: nat)
    ensures a <= |s|
    decreases |s|
  {
    if s != [] && IsSpace(s[0]) then 1 + TrimStart(s[1..]) else 0
  }

  /** t is what is left of s once white space is cut from both ends, when
      the cut starts at a: the piece of s at a, with only white space around
      it, neither starting nor ending with white space, and empty exactly
      when s is all white space. */
  predicate TrimmedAs(s: string, a: nat, t: string) {
    a + |t| <= |s| && t == s[a..a + |t|] &&
    (forall k :: 0 <= k < a ==> IsSpace(s[k])) &&
    (forall k :: a + |t| <= k < |s| ==> IsSpace(s[k])) &&
    (t != [] ==> !IsSpace(t[0]) && !IsSpace(t[|t| - 1])) &&
    (t == [] <==> forall k :: 0 <= k < |s| ==> IsSpace(s[k]))
  }

  /** The trim of s is s with its white space cut from both ends. */
  lemma {:induction false} TrimShape(s: string)
    ensures TrimmedAs(s, TrimStart(s), Trim(s))
    decreases |s|
  {
    if s != [] && IsSpace(s[0]) {
      TrimShape(s[1..]);
      TrimmedFront(s, TrimStart(s[1..]), Trim(s[1..]));
    } else if s != [] && IsSpace(s[|s| - 1]) {
      assert s[..|s| - 1][0] == s[0];
      TrimShape(s[..|s| - 1]);
      TrimmedBack(s, Trim(s[..|s| - 1]));
    } else {
      TrimmedWhole(s);
    }
  }

  lemma TrimmedFront(s: string, a: nat, t: string)
    requires s != [] && IsSpace(s[0]) && TrimmedAs(s[1..], a, t)
    ensures TrimmedAs(s, a + 1, t)
  {
    assert forall k :: 0 <= k < |s| - 1 ==> s[1..][k] == s[k + 1];
  }

  lemma TrimmedBack(s: string, t: string)
    requires s != [] && IsSpace(s[|s| - 1]) && TrimmedAs(s[..|s| - 1], 0, t)
    ensures TrimmedAs(s, 0, t)
  {
    assert forall k :: 0 <= k < |s| - 1 ==> s[..|s| - 1][k] == s[k];
  }

  lemma TrimmedWhole(s: string)
    requires s != [] ==> !IsSpace(s[0]) && !IsSpace(s[|s| - 1])
    ensures TrimmedAs(s, 0, s)
  {
    assert s[0..|s|] == s;
  }

  /** A string that neither starts nor ends with white space is its own trim. */
  lemma TrimTrimmed(s: string)
    requires s != [] ==> !IsSpace(s[0]) && !IsSpace(s[|s| - 1])
    ensures Trim(s) == s
  {
  }

  /** Trimming twice is trimming once. */
  lemma TrimIdempotent(s: string)
    ensures Trim(Trim(s)) == Trim(s)
  {
    TrimShape(s);
    TrimTrimmed(Trim(s));
  }

  /** The two index loops of `trim_copy`. */
  method TrimCopy(s: string) returns (t: string)
    ensures t == Trim(s)
  {
    var a := 0;
    while a < |s| && IsSpace(s[a])
      invariant 0 <= a <= |s|
      invariant Trim(s[a..]) == Trim(s)
    {
      TrimDropFront(s, a);
      a := a + 1;
    }
    var b := |s|;
    assert s[a..b] == s[a..];
    while b > a && IsSpace(s[b - 1])
      invariant a <= b <= |s|
      invariant Trim(s[a..b]) == Trim(s)
      invariant a == |s| || !IsSpace(s[a])
    {
      TrimDropBack(s, a, b);
      b := b - 1;
    }
    t := s[a..b];
    TrimTrimmed(t);
  }

  lemma TrimDropFront(s: string, a: nat)
    requires a < |s| && IsSpace(s[a])
    ensures Trim(s[a..]) == Trim(s[a + 1..])
  {
    assert s[a..][1..] == s[a + 1..];
  }

  lemma TrimDropBack(s: string, a: nat, b: nat)
    requires a < b <= |s| && !IsSpace(s[a]) && IsSpace(s[b - 1])
    ensures Trim(s[a..b]) == Trim(s[a..b - 1])
  {
    assert s[a..b][..b - 1 - a] == s[a..b - 1];
  }

  predicate IsGlobChar(c: char) {
    c == '*' || c == '?' || c == '['
  }

  /** `has_glob`: the token holds a wildcard character. */
  function HasGlob(s: string): (r: bool)
    ensures r <==> exists k :: 0 <= k < |s| && IsGlobChar(s[k])
  {
    var star, query, bracket := Find(s, '*', 0), Find(s, '?', 0), Find(s, '[', 0);
    assert star.Some? ==> IsGlobChar(s[star.value]);
    assert query.Some? ==> IsGlobChar(s[query.value]);
    assert bracket.Some? ==> IsGlobChar(s[bracket.value]);
    star.Some? || query.Some? || bracket.Some?
  }

  /** The pieces of s between its commas, as a full split gives them: one
      more piece than there are commas. */
  function Pieces(s: string): (ps: seq<string>)
    ensures |ps| >= 1
    ensures forall i, k :: 0 <= i < |ps| && 0 <= k < |ps[i]| ==> ps[i][k] != ','
    decreases |s|
  {
    match Find(s, ',', 0)
    case None => [s]
    case Some(j) => [s[..j]] + Pieces(s[j + 1..])
  }

  /** A piece, trimmed, unless nothing is left of it. */
  function Keep1(p: string): seq<string> {
    if |Trim(p)| == 0 then [] else [Trim(p)]
  }

  /** The trimmed pieces that are not empty, in order. */
  function Kept(ps: seq<string>): seq<string>
    decreases |ps|
  {
    if ps == [] then [] else Keep1(ps[0]) + Kept(ps[1..])
  }

  /** The tokens of a comma-separated input list. */
  function Tokens(s: string): seq<string> {
    Kept(Pieces(s))
  }

  /** Every token is non-empty, holds no comma and carries no surrounding
      white space. */
  lemma TokensShape(s: string)
    ensures forall i :: 0 <= i < |Tokens(s)| ==>
      Tokens(s)[i] != [] && Trim(Tokens(s)[i]) == Tokens(s)[i] &&
      forall k :: 0 <= k < |Tokens(s)[i]| ==> Tokens(s)[i][k] != ','
  {
    KeptShape(Pieces(s));
  }

  lemma {:induction false} KeptShape(ps: seq<string>)
    requires forall i, k :: 0 <= i < |ps| && 0 <= k < |ps[i]| ==> ps[i][k] != ','
    ensures forall i :: 0 <= i < |Kept(ps)| ==>
      Kept(ps)[i] != [] && Trim(Kept(ps)[i]) == Kept(ps)[i] &&
      forall k :: 0 <= k < |Kept(ps)[i]| ==> Kept(ps)[i][k] != ','
    decreases |ps|
  {
    if ps != [] {
      KeptShape(ps[1..]);
      var t := Trim(ps[0]);
      TrimShape(ps[0]);
      TrimIdempotent(ps[0]);
      var a := TrimStart(ps[0]);
      assert forall k :: 0 <= k < |t| ==> t[k] == ps[0][a + k];
    }
  }

  /** The tokens from position i on when no comma follows i. */
  lemma TokensLast(s: string, i: nat)
    requires i < |s| && Find(s, ',', i).None?
    ensures Tokens(s[i..]) == Keep1(s[i..])
  {
    FindInSuffix(s, ',', i);
    PiecesNoComma(s[i..]);
  }

  /** The tokens from position i on when the next comma is at n - 1: the
      piece before it, then the tokens after it. */
  lemma TokensCut(s: string, i: nat, n: nat)
    requires i < |s| && Find(s, ',', i).Some? && n == Find(s, ',', i).value + 1
    ensures Tokens(s[i..]) == Keep1(s[i..n - 1]) + Tokens(s[n..])
  {
    FindInSuffix(s, ',', i);
    CutAt(s, i, n - 1);
  }

  lemma CutAt(s: string, i: nat, j: nat)
    requires i <= j < |s| && Find(s[i..], ',', 0) == Some(j - i)
    ensures Tokens(s[i..]) == Keep1(s[i..j]) + Tokens(s[j + 1..])
  {
    SuffixCut(s, i, j);
    PiecesAtComma(s[i..], j - i);
  }

  lemma SuffixCut(s: string, i: nat, j: nat)
    requires i <= j < |s|
    ensures s[i..][..j - i] == s[i..j] && s[i..][j - i + 1..] == s[j + 1..]
  {
  }

  /** A piece without commas is the whole input. */
  lemma PiecesNoComma(t: string)
    requires Find(t, ',', 0).None?
    ensures Tokens(t) == Keep1(t)
  {
    assert Pieces(t) == [t] + [];
    KeptCons(t, []);
  }

  /** The pieces of t whose first comma is at j. */
  lemma PiecesAtComma(t: string, j: nat)
    requires Find(t, ',', 0) == Some(j)
    ensures Tokens(t) == Keep1(t[..j]) + Tokens(t[j + 1..])
  {
    PiecesCons(t, j);
    KeptCons(t[..j], Pieces(t[j + 1..]));
  }

  lemma PiecesCons(t: string, j: nat)
    requires Find(t, ',', 0) == Some(j)
    ensures Pieces(t) == [t[..j]] + Pieces(t[j + 1..])
  {
  }

  lemma KeptCons(p: string, ps: seq<string>)
    ensures Kept([p] + ps) == Keep1(p) + Kept(ps)
  {
    assert ([p] + ps)[1..] == ps;
  }

  /** What is kept of a piece is its trim, when that is not empty. */
  lemma Keep1Trim(p: string, tok: string)
    requires tok == Trim(p)
    ensures Keep1(p) == (if tok == [] then [] else [tok])
  {
  }

  /** The tokens of s from position i on, read piece by piece as the loop
      of `split_commas` reads them. */
  function TokensFrom(s: string, i: nat): seq<string>
    decreases |s| - i
  {
    if i >= |s| then []
    else
      match Find(s, ',', i)
      case None => Keep1(s[i..])
      case Some(j) => Keep1(s[i..j]) + TokensFrom(s, j + 1)
  }

  /** Reading piece by piece gives the tokens of the remaining input. */
  lemma {:induction false} TokensFromSuffix(s: string, i: nat)
    requires i <= |s|
    ensures TokensFrom(s, i) == Tokens(s[i..])
    decreases |s| - i
  {
    if i == |s| {
      NoTokens(s[i..]);
    } else if Find(s, ',', i).None? {
      TokensFromLast(s, i);
      TokensLast(s, i);
    } else {
      var n := Find(s, ',', i).value + 1;
      TokensFromCut(s, i, n);
      TokensCut(s, i, n);
      TokensFromSuffix(s, n);
    }
  }

  /** The empty input has no tokens. */
  lemma NoTokens(t: string)
    requires t == []
    ensures Tokens(t) == []
  {
    assert Pieces(t) == [""];
  }

  /** `split_commas`. */
  method SplitCommas(s: string) returns (out: seq<string>)
    ensures out == Tokens(s)
  {
    ghost var total := TokensFrom(s, 0);
    out := [];
    var i := 0;
    while i < |s|
      invariant 0 <= i <= |s|
      invariant out + TokensFrom(s, i) == total
      decreases |s| - i
    {
      var next;
      out, next := Pass(s, i, out, total);
      if next.None? {
        break;
      }
      i := next.value;
    }
    SplitDone(s, i, out, total);
  }

  /** One pass of the loop of `split_commas`: the piece from i to the next
      comma, trimmed and pushed unless empty, and where the next piece
      starts, if there is one. */
  method Pass(s: string, i: nat, out: seq<string>, ghost total: seq<string>) returns (out': seq<string>, next: Option<nat>)
    requires i < |s| && out + TokensFrom(s, i) == total
    ensures next.None? ==> out' == total
    ensures next.Some? ==> i < next.value <= |s| && out' + TokensFrom(s, next.value) == total
  {
    var j := Find(s, ',', i);
    if j.None? {
      out' := PushToken(out, s[i..]);
      LastPiece(s, i, out, out', total);
      next := None;
    } else {
      out' := PushToken(out, s[i..j.value]);
      var n := j.value + 1;
      NextPiece(s, i, n, out, out', total);
      next := Some(n);
    }
  }

  /** Trims a piece and pushes it unless nothing is left of it. */
  method PushToken(out: seq<string>, piece: string) returns (out': seq<string>)
    ensures out' == out + Keep1(piece)
  {
    var tok := TrimCopy(piece);
    out' := out;
    if tok != [] {
      out' := out' + [tok];
    }
    KeepStep(out, out', piece, tok);
  }

  /** Pushing the trimmed piece unless it is empty keeps what `Keep1` keeps. */
  lemma KeepStep(before: seq<string>, out: seq<string>, piece: string, tok: string)
    requires tok == Trim(piece)
    requires out == if tok != [] then before + [tok] else before
    ensures out == before + Keep1(piece)
  {
  }

  /** The pass of the loop of `split_commas` after the last comma. */
  lemma LastPiece(s: string, i: nat, before: seq<string>, out: seq<string>, total: seq<string>)
    requires i < |s| && Find(s, ',', i).None?
    requires out == before + Keep1(s[i..])
    requires before + TokensFrom(s, i) == total
    ensures out == total
  {
    TokensFromLast(s, i);
  }

  /** A pass of the loop of `split_commas` that ends at a comma keeps its
      invariant. */
  lemma NextPiece(s: string, i: nat, n: nat, before: seq<string>, out: seq<string>, total: seq<string>)
    requires i < |s| && Find(s, ',', i).Some? && n == Find(s, ',', i).value + 1
    requires out == before + Keep1(s[i..n - 1])
    requires before + TokensFrom(s, i) == total
    ensures out + TokensFrom(s, n) == total
  {
    TokensFromCut(s, i, n);
    ConcatAssoc(before, Keep1(s[i..n - 1]), TokensFrom(s, n));
  }

  lemma TokensFromLast(s: string, i: nat)
    requires i < |s| && Find(s, ',', i).None?
    ensures TokensFrom(s, i) == Keep1(s[i..])
  {
  }

  lemma TokensFromCut(s: string, i: nat, n: nat)
    requires i < |s| && Find(s, ',', i).Some? && n == Find(s, ',', i).value + 1
    ensures TokensFrom(s, i) == Keep1(s[i..n - 1]) + TokensFrom(s, n)
  {
  }

  /** When the loop of `split_commas` ends, it has collected every token. */
  lemma SplitDone(s: string, i: nat, out: seq<string>, total: seq<string>)
    requires total == TokensFrom(s, 0) && i <= |s|
    requires i == |s| ==> out + TokensFrom(s, i) == total
    requires i < |s| ==> out == total
    ensures out == Tokens(s)
  {
    if i == |s| {
      assert TokensFrom(s, i) == [];
      assert out + [] == out;
    }
    assert s[0..] == s;
    TokensFromSuffix(s, 0);
  }

  predicate IsSep(c: char) {
    c == '/' || c == '\\'
  }

  /** `join_path`: one separator between a non-empty directory and the name,
      none added when the directory already ends in one. */
  function JoinPath(a: string, b: string): (r: string)
    ensures a == [] ==> r == b
    ensures a != [] ==> |r| >= |a| + |b| && r[..|a|] == a && r[|r| - |b|..] == b && IsSep(r[|r| - |b| - 1])
    ensures a != [] && IsSep(a[|a| - 1]) ==> |r| == |a| + |b|
    ensures a != [] && !IsSep(a[|a| - 1]) ==> |r| == |a| + 1 + |b| && r[|a|] == '/'
  {
    if a == [] then b
    else if IsSep(a[|a| - 1]) then a + b
    else a + "/" + b
  }

  /** The position of the last separator. */
  function LastSep(s: string): (r: Option<nat>)
    ensures r.Some? ==> r.value < |s| && IsSep(s[r.value]) && forall k :: r.value < k < |s| ==> !IsSep(s[k])
    ensures r.None? ==> forall k :: 0 <= k < |s| ==> !IsSep(s[k])
    decreases |s|
  {
    if s == [] then None
    else if IsSep(s[|s| - 1]) then Some(|s| - 1)
    else LastSep(s[..|s| - 1])
  }

  /** `basename_of` without `gSystem`: what follows the last '/' or '\',
      or the whole path when it holds neither. */
  function BaseName(path: string): (r: string)
    ensures forall k :: 0 <= k < |r| ==> !IsSep(r[k])
    ensures |r| <= |path| && r == path[|path| - |r|..]
    ensures |r| < |path| ==> IsSep(path[|path| - |r| - 1])
  {
    match LastSep(path)
    case None => path
    case Some(p) => path[p + 1..]
  }

  /** A separator-free tail that follows a separator, or makes up the whole
      path, is the base name. */
  lemma BaseNameUnique(path: string, n: nat)
    requires n <= |path|
    requires forall k :: |path| - n <= k < |path| ==> !IsSep(path[k])
    requires n < |path| ==> IsSep(path[|path| - n - 1])
    ensures BaseName(path) == path[|path| - n..]
  {
    var r := BaseName(path);
  }

  /** The base name of a base name is itself. */
  lemma BaseNameIdempotent(path: string)
    ensures BaseName(BaseName(path)) == BaseName(path)
  {
    var r := BaseName(path);
    BaseNameUnique(r, |r|);
  }

  /** Joining a directory and a name without separators gives back that
      name as the base name of the joined path. */
  lemma BaseNameOfJoin(dir: string, name: string)
    requires forall k :: 0 <= k < |name| ==> !IsSep(name[k])
    ensures BaseName(JoinPath(dir, name)) == name
  {
    var p := JoinPath(dir, name);
    BaseNameUnique(p, |name|);
  }

  /** `extract_date_yyyymmdd`: the match of `^[0-9]{8}`, the eight leading
      digits of the name, or "" when the name does not start with eight. */
  function ExtractDate(base: string): (d: string)
    ensures d != [] <==> |base| >= 8 && AllDigits(base[..8])
    ensures d != [] ==> |d| == 8 && AllDigits(d) && d == base[..8]
  {
    if |base| >= 8 && AllDigits(base[..8]) then base[..8] else ""
  }

  /** The dates found in the base names of the files, in order. */
  function Dates(files: seq<string>): (ds: seq<string>)
    ensures forall i :: 0 <= i < |ds| ==> |ds[i]| == 8 && AllDigits(ds[i])
    decreases |files|
  {
    if files == [] then []
    else
      var d := ExtractDate(BaseName(files[|files| - 1]));
      Dates(files[..|files| - 1]) + (if d == [] then [] else [d])
  }

  /** What the loop of `compute_span_from_filenames` holds after the files. */
  function SpanOf(files: seq<string>): (string, string)
    decreases |files|
  {
    if files == [] then ("", "")
    else
      var (lo, hi) := SpanOf(files[..|files| - 1]);
      var d := ExtractDate(BaseName(files[|files| - 1]));
      if d == [] then (lo, hi)
      else (if lo == [] || StrLess(d, lo) then d else lo, if hi == [] || StrLess(hi, d) then d else hi)
  }

  /** The span is the least and the greatest date of the files in string
      order, and empty exactly when no file name carries a date. */
  lemma {:induction false} SpanBounds(files: seq<string>)
    ensures SpanOf(files).0 == [] <==> Dates(files) == []
    ensures SpanOf(files).1 == [] <==> Dates(files) == []
    ensures SpanOf(files).0 != [] ==> SpanOf(files).0 in Dates(files) && SpanOf(files).1 in Dates(files)
    ensures forall i :: 0 <= i < |Dates(files)| ==>
      StrLessEq(SpanOf(files).0, Dates(files)[i]) && StrLessEq(Dates(files)[i], SpanOf(files).1)
    decreases |files|
  {
    if files != [] {
      var init := files[..|files| - 1];
      SpanBounds(init);
      var (lo, hi) := SpanOf(init);
      var d := ExtractDate(BaseName(files[|files| - 1]));
      if d != [] {
        var ds := Dates(init);
        assert Dates(files) == ds + [d];
        var lo', hi' := SpanOf(files).0, SpanOf(files).1;
        forall i | 0 <= i < |ds|
          ensures StrLessEq(lo', ds[i]) && StrLessEq(ds[i], hi')
        {
          if lo' != lo {
            StrLessTransitiveEq(d, lo, ds[i]);
          }
          if hi' != hi {
            StrLessTransitiveEq2(ds[i], hi, d);
          }
        }
        if lo != [] && !StrLess(d, lo) && d != lo {
          StrLessTotal(d, lo);
        }
        if hi != [] && !StrLess(hi, d) && d != hi {
          StrLessTotal(d, hi);
        }
      }
    }
  }

  lemma StrLessTransitiveEq(a: string, b: string, c: string)
    requires StrLess(a, b) && StrLessEq(b, c)
    ensures StrLessEq(a, c)
  {
    if b != c {
      StrLessTransitive(a, b, c);
    }
  }

  lemma StrLessTransitiveEq2(a: string, b: string, c: string)
    requires StrLessEq(a, b) && StrLess(b, c)
    ensures StrLessEq(a, c)
  {
    if a != b {
      StrLessTransitive(a, b, c);
    }
  }

  /** The loop of `compute_span_from_filenames`; it returns the earliest and
      the latest date among the file names. */
  method ComputeSpan(files: seq<string>) returns (dmin: string, dmax: string)
    ensures (dmin, dmax) == SpanOf(files)
    ensures dmin == [] <==> Dates(files) == []
    ensures dmin != [] ==> dmin in Dates(files) && dmax in Dates(files)
    ensures forall i :: 0 <= i < |Dates(files)| ==> StrLessEq(dmin, Dates(files)[i]) && StrLessEq(Dates(files)[i], dmax)
  {
    dmin, dmax := "", "";
    for i := 0 to |files|
      invariant (dmin, dmax) == SpanOf(files[..i])
    {
      assert files[..i + 1][..i] == files[..i];
      var base := BaseName(files[i]);
      var d := ExtractDate(base);
      if d == [] {
        continue;
      }
      if dmin == [] || StrLess(d, dmin) {
        dmin := d;
      }
      if dmax == [] || StrLess(dmax, d) {
        dmax := d;
      }
    }
    assert files[..|files|] == files;
    SpanBounds(files);
  }

  /** A non-null, non-empty output argument other than "auto". */
  predicate Explicit(arg: Option<string>) {
    arg.Some? && arg.value != [] && arg.value != "auto"
  }

  /** `pick_outfile_name`. */
  function PickOutfileName(files: seq<string>, arg: Option<string>): string {
    if Explicit(arg) then BaseName(arg.value)
    else SpanName(SpanOf(files).0, SpanOf(files).1)
  }

  /** The automatic name after the span of dates. */
  function SpanName(dmin: string, dmax: string): string {
    if dmin == [] then "temps.root"
    else if dmin == dmax then "temps_" + dmin + ".root"
    else "temps_" + dmin + "_" + dmax + ".root"
  }

  predicate AllSame(ds: seq<string>) {
    forall k :: 0 <= k < |ds| ==> ds[k] == ds[0]
  }

  /** Without an explicit argument the name is "temps.root" exactly when no
      file name carries a date. */
  lemma PickUndated(files: seq<string>, arg: Option<string>)
    requires !Explicit(arg)
    ensures PickOutfileName(files, arg) == "temps.root" <==> Dates(files) == []
  {
    SpanBounds(files);
    if SpanOf(files).0 != [] {
      DatedNameShape(SpanOf(files).0, SpanOf(files).1);
      NotPlain(SpanName(SpanOf(files).0, SpanOf(files).1));
    }
  }

  /** With a date in the span, the automatic name has '_' where "temps.root"
      has its '.' . */
  lemma DatedNameShape(dmin: string, dmax: string)
    requires dmin != []
    ensures |SpanName(dmin, dmax)| > 5 && SpanName(dmin, dmax)[5] == '_'
  {
  }

  lemma NotPlain(r: string)
    requires |r| > 5 && r[5] == '_'
    ensures r != "temps.root"
  {
    assert "temps.root"[5] == '.';
  }

  /** When every file carries the same date d, the name is `temps_<d>.root`. */
  lemma PickOneDate(files: seq<string>, arg: Option<string>)
    requires !Explicit(arg) && Dates(files) != [] && AllSame(Dates(files))
    ensures PickOutfileName(files, arg) == "temps_" + Dates(files)[0] + ".root"
  {
    SpanBounds(files);
    var ds := Dates(files);
    var (lo, hi) := SpanOf(files);
    var k :| 0 <= k < |ds| && ds[k] == lo;
    var k' :| 0 <= k' < |ds| && ds[k'] == hi;
    assert lo == ds[0] && hi == ds[0];
  }

  /** When the dates differ, the name is `temps_<earliest>_<latest>.root`,
      with the earliest date before the latest. */
  lemma PickTwoDates(files: seq<string>, arg: Option<string>)
    requires !Explicit(arg) && Dates(files) != [] && !AllSame(Dates(files))
    ensures PickOutfileName(files, arg) == "temps_" + SpanOf(files).0 + "_" + SpanOf(files).1 + ".root"
    ensures StrLess(SpanOf(files).0, SpanOf(files).1)
  {
    SpanBounds(files);
    var ds := Dates(files);
    var (lo, hi) := SpanOf(files);
    var m :| 0 <= m < |ds| && ds[m] != ds[0];
    assert StrLessEq(lo, ds[m]) && StrLessEq(ds[m], hi);
    assert StrLessEq(lo, ds[0]) && StrLessEq(ds[0], hi);
    if lo == hi {
      if ds[m] != lo {
        StrLessAsymmetric(lo, ds[m]);
      }
      if ds[0] != lo {
        StrLessAsymmetric(lo, ds[0]);
      }
    }
    if lo != ds[0] {
      StrLessTransitiveEq(lo, ds[0], hi);
    }
  }

  /** A file name without directories that starts with eight digits. */
  lemma DatedName(f: string, d: string)
    requires |f| >= 8 && f[..8] == d && AllDigits(d)
    requires forall k :: 0 <= k < |f| ==> !IsSep(f[k])
    ensures ExtractDate(BaseName(f)) == d
  {
    BaseNameUnique(f, |f|);
  }

  /** One dated file spans its own date. */
  lemma SpanOne(f: string, d: string)
    requires ExtractDate(BaseName(f)) == d && d != []
    ensures SpanOf([f]) == (d, d)
  {
    assert [f][..0] == [];
  }

  /** Two dated files in date order span from the first to the second. */
  lemma SpanTwo(f: string, g: string, d: string, e: string)
    requires ExtractDate(BaseName(f)) == d && d != []
    requires ExtractDate(BaseName(g)) == e && StrLess(d, e)
    ensures SpanOf([f, g]) == (d, e)
  {
    SpanOne(f, d);
    assert [f, g][..1] == [f];
    StrLessAsymmetric(d, e);
  }

  /** Automatic naming after a single dated file. */
  lemma AutoOne(f: string, d: string)
    requires ExtractDate(BaseName(f)) == d && d != []
    ensures PickOutfileName([f], Some("")) == "temps_" + d + ".root"
  {
    SpanOne(f, d);
  }

  /** Automatic naming after two files with different dates. */
  lemma AutoTwo(f: string, g: string, d: string, e: string)
    requires ExtractDate(BaseName(f)) == d && d != []
    requires ExtractDate(BaseName(g)) == e && StrLess(d, e)
    ensures PickOutfileName([f, g], Some("")) == "temps_" + d + "_" + e + ".root"
  {
    SpanTwo(f, g, d, e);
    StrLessIrreflexive(d);
  }

  /** The first usage example of the macro: one log file of 2025-08-19. */
  lemma OutfileOne()
    ensures PickOutfileName(["20250819_0800-0800.TXT"], Some("")) == "temps_20250819.root"
  {
    DatedName("20250819_0800-0800.TXT", "20250819");
    AutoOne("20250819_0800-0800.TXT", "20250819");
    NameOne();
  }

  lemma NameOne()
    ensures "temps_" + "20250819" + ".root" == "temps_20250819.root"
  {
  }

  /** An explicit output name is kept as it is. */
  lemma OutfileExplicit()
    ensures PickOutfileName(["20250819_0800-0800.TXT"], Some("mi_salida.root")) == "mi_salida.root"
  {
    ExplicitName("mi_salida.root");
    BaseNameUnique("mi_salida.root", 14);
  }

  /** An explicit output name in a directory is cut down to its base name. */
  lemma OutfileExplicitDir()
    ensures PickOutfileName([], Some("out/mi_salida.root")) == "mi_salida.root"
  {
    ExplicitName("out/mi_salida.root");
    BaseNameUnique("out/mi_salida.root", 14);
  }

  lemma ExplicitName(name: string)
    requires name != [] && name != "auto"
    ensures Explicit(Some(name))
  {
  }
}
