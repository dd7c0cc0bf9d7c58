/** The web client's splitSqlStatements: strip comments, split at every semicolon, then glue pieces
    back together by quote parity. Proved equal to a one-pass, quote-aware scanner. */
module SqlSplit {
  import opened Prelude

  // ---------------------------------------------------------------------------
  // The JavaScript string operations used
  // ---------------------------------------------------------------------------

  /** Ends a line for `.` and `$` of a multi-line regular expression. */
  predicate IsLineEnd(c: char) { c == '\n' || c == '\r' || c == '\U{2028}' || c == '\U{2029}' }

  /** What String.prototype.trim removes. */
  predicate IsSpace(c: char) {
    || IsLineEnd(c) || c == '\t' || c == '\U{000B}' || c == '\U{000C}' || c == ' ' || c == '\U{00A0}'
    || c == '\U{1680}' || '\U{2000}' <= c <= '\U{200A}' || c == '\U{202F}' || c == '\U{205F}'
    || c == '\U{3000}' || c == '\U{FEFF}'
  }

  function TrimLeft(s: string): string {
    if s != "" && IsSpace(s[0]) then TrimLeft(s[1..]) else s
  }

  function TrimRight(s: string): string {
    if s != "" && IsSpace(s[|s| - 1]) then TrimRight(s[..|s| - 1]) else s
  }

  function Trim(s: string): string { TrimLeft(TrimRight(s)) }

  function DropLeadingSemicolons(s: string): string {
    if s != "" && s[0] == ';' then DropLeadingSemicolons(s[1..]) else s
  }

  function DropTrailingSemicolons(s: string): string {
    if s != "" && s[|s| - 1] == ';' then DropTrailingSemicolons(s[..|s| - 1]) else s
  }

  function Split(s: string): (parts: seq<string>)
    ensures parts != []
  {
    if s == "" then [""]
    else if s[0] == ';' then [""] + Split(s[1..])
    else var rest := Split(s[1..]); [[s[0]] + rest[0]] + rest[1..]
  }

  function Quotes(s: string): nat {
    if s == "" then 0 else (if s[0] == '\'' then 1 else 0) + Quotes(s[1..])
  }

  predicate Opens(s: string, a: char, b: char) { |s| >= 2 && s[0] == a && s[1] == b }

  /** Where the first block-comment end in `s` stops; None when there is none. */
  function AfterClose(s: string): (n: Option<nat>)
    ensures n.Some? ==> 2 <= n.value <= |s|
  {
    if |s| < 2 then None
    else if Opens(s, '*', '/') then Some(2)
    else match AfterClose(s[1..])
      case None => None
      case Some(n) => Some(n + 1)
  }

  function StripBlocks(s: string): string
    decreases |s|
  {
    if s == "" then ""
    else if Opens(s, '/', '*') && AfterClose(s[2..]).Some? then StripBlocks(s[2 + AfterClose(s[2..]).value..])
    else [s[0]] + StripBlocks(s[1..])
  }

  function SkipLine(s: string): (r: string)
    ensures |r| <= |s|
  {
    if s == "" || IsLineEnd(s[0]) then s else SkipLine(s[1..])
  }

  function StripLines(s: string): string
    decreases |s|
  {
    if s == "" then ""
    else if Opens(s, '-', '-') then StripLines(SkipLine(s[2..]))
    else [s[0]] + StripLines(s[1..])
  }

  function Clean(sql: string): string { StripLines(StripBlocks(sql)) }

  function Normalize(current: string): string {
    Trim(DropTrailingSemicolons(DropLeadingSemicolons(Trim(current))))
  }

  // ---------------------------------------------------------------------------
  // The splitter, as a loop and as the function the loop computes
  // ---------------------------------------------------------------------------

  function Pushed(current: string): seq<string> {
    if Normalize(current) == "" then [] else [Normalize(current)]
  }

  function Glue(current: string, part: string): string {
    current + (if current == "" then "" else ";") + part
  }

  predicate Complete(current: string) { Quotes(current) % 2 == 0 && |Trim(current)| > 0 }

  function Merge(parts: seq<string>, current: string): seq<string>
    decreases |parts|
  {
    if parts == [] then
      if |Trim(current)| > 0 then Pushed(current) else []
    else
      var next := Glue(current, parts[0]);
      if Complete(next) then Pushed(next) + Merge(parts[1..], "") else Merge(parts[1..], next)
  }

  // ---------------------------------------------------------------------------
  // The reference: one pass, cutting at the semicolons outside quotes
  // ---------------------------------------------------------------------------

  function Scan(s: string, quoted: bool, piece: string): (pieces: seq<string>)
    ensures pieces != []
    decreases s
  {
    if s == "" then [piece]
    else if s[0] == ';' && !quoted then [piece] + Scan(s[1..], false, "")
    else Scan(s[1..], if s[0] == '\'' then !quoted else quoted, piece + [s[0]])
  }

  function MapNonEmpty(tidy: string -> string, pieces: seq<string>): seq<string> {
    if pieces == [] then []
    else (if tidy(pieces[0]) == "" then [] else [tidy(pieces[0])]) + MapNonEmpty(tidy, pieces[1..])
  }

  function Pieces(s: string, tidy: string -> string): seq<string> { MapNonEmpty(tidy, Scan(s, false, "")) }

  /** What the splitter does to a piece: only an unbalanced one can lose more than its blanks. */
  function Stripped(piece: string): string { Trim(DropTrailingSemicolons(Trim(piece))) }

  ghost predicate Blank(s: string) { forall c :: c in s ==> IsSpace(c) }

  predicate Odd(s: string) { Quotes(s) % 2 == 1 }

  /** No semicolon of `s` is outside quotes: each has an odd number of quotes before it. */
  ghost predicate Guarded(s: string) { forall i :: 0 <= i < |s| && s[i] == ';' ==> Odd(s[..i]) }

  // ---------------------------------------------------------------------------
  // Trimming
  // ---------------------------------------------------------------------------

  predicate Tight(s: string) { s == "" || (!IsSpace(s[0]) && !IsSpace(s[|s| - 1])) }

  lemma {:induction false} TrimLeftParts(s: string) returns (a: string)
    ensures s == a + TrimLeft(s) && Blank(a)
    ensures TrimLeft(s) == "" || !IsSpace(TrimLeft(s)[0])
  {
    if s != "" && IsSpace(s[0]) {
      a := TrimLeftParts(s[1..]);
      a := [s[0]] + a;
    } else {
      a := "";
    }
  }

  lemma {:induction false} TrimRightParts(s: string) returns (b: string)
    ensures s == TrimRight(s) + b && Blank(b)
    ensures TrimRight(s) == "" || !IsSpace(TrimRight(s)[|TrimRight(s)| - 1])
  {
    if s != "" && IsSpace(s[|s| - 1]) {
      b := TrimRightParts(s[..|s| - 1]);
      b := b + [s[|s| - 1]];
    } else {
      b := "";
    }
  }

  lemma TrimParts(s: string) returns (a: string, b: string)
    ensures s == a + Trim(s) + b && Blank(a) && Blank(b) && Tight(Trim(s))
  {
    b := TrimRightParts(s);
    a := TrimLeftParts(TrimRight(s));
  }

  lemma {:induction false} TrimLeftPad(a: string, core: string)
    requires Blank(a) && (core == "" || !IsSpace(core[0]))
    ensures TrimLeft(a + core) == core
  {
    if a == "" {
      assert a + core == core;
    } else {
      assert (a + core)[1..] == a[1..] + core;
      TrimLeftPad(a[1..], core);
    }
  }

  lemma {:induction false} TrimRightPad(core: string, b: string)
    requires Blank(b) && (core == "" || !IsSpace(core[|core| - 1]))
    ensures TrimRight(core + b) == core
  {
    if b == "" {
      assert core + b == core;
    } else {
      assert (core + b)[..|core + b| - 1] == core + b[..|b| - 1];
      TrimRightPad(core, b[..|b| - 1]);
    }
  }

  /** Trimming undoes blank padding, and only that. */
  lemma TrimPad(a: string, core: string, b: string)
    requires Blank(a) && Blank(b) && Tight(core)
    ensures Trim(a + core + b) == core
  {
    if core == "" {
      assert a + core + b == "" + (a + b);
      TrimRightPad("", a + b);
    } else {
      TrimRightPad(a + core, b);
      TrimLeftPad(a, core);
    }
  }

  lemma TrimBlank(s: string)
    ensures Trim(s) == "" <==> Blank(s)
  {
    var a, b := TrimParts(s);
    if Trim(s) == "" {
      assert s == a + b;
    } else {
      assert Trim(s)[0] in s;
    }
  }

  lemma TrimTight(s: string)
    requires Tight(s)
    ensures Trim(s) == s
  {
    TrimPad("", s, "");
    assert "" + s + "" == s;
  }

  // ---------------------------------------------------------------------------
  // Quotes and scanning
  // ---------------------------------------------------------------------------

  lemma {:induction false} QuotesAppend(a: string, b: string)
    ensures Quotes(a + b) == Quotes(a) + Quotes(b)
  {
    if a == "" {
      assert a + b == b;
    } else {
      assert (a + b)[1..] == a[1..] + b;
      QuotesAppend(a[1..], b);
    }
  }

  lemma {:induction false} BlankHasNoQuotes(s: string)
    requires Blank(s)
    ensures Quotes(s) == 0
  {
    if s != "" {
      assert s[0] in s;
      BlankHasNoQuotes(s[1..]);
    }
  }

  lemma QuotesSnoc(s: string, c: char)
    ensures Quotes(s + [c]) == Quotes(s) + (if c == '\'' then 1 else 0)
  {
    QuotesAppend(s, [c]);
  }

  /** A guarded stretch is scanned through without a cut. */
  lemma {:induction false} ScanThrough(done: string, a: string, b: string)
    requires Guarded(done + a)
    ensures Scan(a + b, Odd(done), done) == Scan(b, Odd(done + a), done + a)
    decreases a
  {
    if a == "" {
      assert a + b == b && done + a == done;
    } else {
      assert (a + b)[1..] == a[1..] + b;
      assert (done + [a[0]]) + a[1..] == done + a;
      QuotesSnoc(done, a[0]);
      if a[0] == ';' {
        assert (done + a)[|done|] == ';' && (done + a)[..|done|] == done;
      }
      ScanThrough(done + [a[0]], a[1..], b);
    }
  }

  /** A guarded, balanced stretch followed by a semicolon is one piece. */
  lemma ScanPiece(x: string, rest: string)
    requires Guarded(x)
    ensures Scan(x, false, "") == [x]
    ensures !Odd(x) ==> Scan(x + ";" + rest, false, "") == [x] + Scan(rest, false, "")
  {
    assert "" + x == x && x + "" == x;
    ScanThrough("", x, "");
    ScanThrough("", x, ";" + rest);
    assert x + ";" + rest == x + (";" + rest);
    assert (";" + rest)[1..] == rest;
  }

  lemma GuardedTrim(x: string)
    requires Guarded(x)
    ensures Guarded(Trim(x)) && (Odd(Trim(x)) <==> Odd(x))
    ensures Trim(x) != "" ==> Trim(x)[0] != ';'
    ensures !Odd(x) && Trim(x) != "" ==> Trim(x)[|Trim(x)| - 1] != ';'
  {
    hide Trim, Blank;
    var a, b := TrimParts(x);
    var t := Trim(x);
    BlankHasNoQuotes(a);
    BlankHasNoQuotes(b);
    QuotesAppend(a + t, b);
    QuotesAppend(a, t);
    forall i | 0 <= i < |t| && t[i] == ';' ensures Odd(t[..i]) && i > 0 {
      assert x[|a| + i] == ';' && x[..|a| + i] == a + t[..i];
      QuotesAppend(a, t[..i]);
    }
    if t != "" && t[|t| - 1] == ';' {
      QuotesSnoc(t[..|t| - 1], ';');
      assert t[..|t| - 1] + [';'] == t;
    }
  }

  /** Normalising a pending statement only trims its guarded part and drops its last semicolons. */
  lemma NormalizePending(w: string, x: string)
    requires Guarded(x) && Blank(w)
    ensures Normalize(x) == Stripped(x) && Normalize(w + ";" + x) == Stripped(x)
  {
    GuardedTrim(x);
    var a, b := TrimParts(x);
    if Trim(x) == "" {
      TrimBlank(x);
      TrimPad(w, ";", x);
      assert DropLeadingSemicolons(";") == "" by { assert ";"[1..] == ""; }
    } else {
      assert w + ";" + x == w + (";" + a + Trim(x)) + b;
      TrimPad(w, ";" + a + Trim(x), b);
      DropCarried(a, Trim(x));
    }
  }

  lemma DropOne(u: string)
    requires u == "" || u[0] != ';'
    ensures DropLeadingSemicolons(";" + u) == u
  {
    assert (";" + u)[1..] == u;
  }

  /** The carried semicolon and the blanks behind it fall away. */
  lemma DropCarried(a: string, t: string)
    requires Blank(a) && Tight(t) && t != "" && t[0] != ';'
    ensures Trim(DropTrailingSemicolons(DropLeadingSemicolons(";" + a + t))) == Trim(DropTrailingSemicolons(t))
  {
    hide Trim, DropTrailingSemicolons, DropLeadingSemicolons, Tight;
    assert ";" + a + t == ";" + (a + t);
    if a != "" {
      assert (a + t)[0] in a;
    }
    DropOne(a + t);
    DropTrailingInside(a, t);
    var d := DropTrailingSemicolons(t);
    var a', b' := TrimParts(d);
    assert a + d == (a + a') + Trim(d) + b';
    TrimPad(a + a', Trim(d), b');
  }

  lemma {:induction false} DropTrailingInside(a: string, t: string)
    requires Blank(a) && t != "" && t[0] != ';'
    ensures DropTrailingSemicolons(a + t) == a + DropTrailingSemicolons(t)
  {
    if t[|t| - 1] == ';' {
      assert (a + t)[..|a + t| - 1] == a + t[..|t| - 1];
      DropTrailingInside(a, t[..|t| - 1]);
    }
  }

  // ---------------------------------------------------------------------------
  // The merge loop refines the scanner
  // ---------------------------------------------------------------------------

  /** The first part of a split, and the text behind its semicolon if there is one. */
  lemma {:induction false} SplitFirst(s: string) returns (rest: Option<string>)
    ensures var p := Split(s)[0];
      && ';' !in p
      && (rest.None? ==> s == p && Split(s) == [p])
      && (rest.Some? ==> s == p + ";" + rest.value && Split(s) == [p] + Split(rest.value))
  {
    if s == "" {
      rest := None;
    } else if s[0] == ';' {
      rest := Some(s[1..]);
    } else {
      rest := SplitFirst(s[1..]);
    }
  }

  /** A pending statement: guarded text `x`, perhaps behind a blank piece and its semicolon. */
  ghost predicate Pending(current: string, w: string, x: string) {
    Blank(w) && Guarded(x) && (current == x || current == w + ";" + x)
  }

  lemma PendingFacts(current: string, w: string, x: string)
    requires Pending(current, w, x)
    ensures Odd(current) <==> Odd(x)
    ensures Pushed(current) == MapNonEmpty(Stripped, [x])
    ensures Blank(current) ==> current == x && Pushed(current) == []
  {
    BlankHasNoQuotes(w);
    QuotesAppend(w + ";", x);
    QuotesSnoc(w, ';');
    NormalizePending(w, x);
    if current != x {
      assert current[|w|] == ';';
      assert ';' in current;
    } else if Blank(current) {
      TrimBlank(x);
    }
  }

  lemma Extend(current: string, w: string, x: string, part: string) returns (w': string, x': string)
    requires Pending(current, w, x) && ';' !in part
    requires current == "" || Odd(x) || Blank(current)
    ensures Pending(Glue(current, part), w', x')
    ensures x' == if Blank(current) then part else x + ";" + part
  {
    assert Guarded(part);
    if Blank(current) {
      PendingFacts(current, w, x);
      w', x' := current, part;
    } else {
      w', x' := w, x + ";" + part;
      assert forall j :: |x| < j < |x'| ==> x'[j] == part[j - |x| - 1];
      forall i | 0 <= i < |x'| && x'[i] == ';' ensures Odd(x'[..i]) {
        if i < |x| {
          assert x'[..i] == x[..i];
        } else if i == |x| {
          assert x'[..i] == x;
        }
      }
      assert w + ";" + x + ";" + part == w + ";" + (x + ";" + part);
    }
  }

  /** What the scanner still has to read: the pending text, a semicolon and the unread `rest`. */
  function Ahead(current: string, x: string, rest: string): string {
    if current == "" then rest else x + ";" + rest
  }

  /** Gluing one more part on leaves the scanner the same statements to find. */
  lemma ExtendAhead(current: string, w: string, x: string, part: string, t: string)
    requires Pending(current, w, x)
    ensures var x' := if Blank(current) then part else x + ";" + part;
      Pieces(Ahead(current, x, part + t), Stripped) == Pieces(x' + t, Stripped)
  {
    hide Scan, Guarded, Quotes, Normalize, Stripped, Trim, Pieces;
    if current != "" {
      if Blank(current) {
        PendingFacts(current, w, x);
        BlankHasNoQuotes(x);
        CutPiece(x, part + t);
      } else {
        assert x + ";" + (part + t) == x + ";" + part + t;
      }
    }
  }

  lemma MergeEnd(part: string, current: string, w: string, x: string)
    requires Pending(Glue(current, part), w, x)
    ensures Merge([part], current) == Pieces(x, Stripped)
  {
    var next := Glue(current, part);
    PendingFacts(next, w, x);
    TrimBlank(next);
    TrimBlank("");
    ScanPiece(x, "");
    assert [part][1..] == [];
  }

  lemma {:induction false} MergeIsScan(rest: string, current: string, w: string, x: string)
    requires Pending(current, w, x)
    requires current == "" || Odd(x) || Blank(current)
    ensures Merge(Split(rest), current) == Pieces(Ahead(current, x, rest), Stripped)
    decreases |rest|
  {
    hide Scan, MapNonEmpty, Split, Guarded, Trim, Normalize, Quotes, Pieces, Blank;
    var part := Split(rest)[0];
    var tail := SplitFirst(rest);
    var next := Glue(current, part);
    var w', x' := Extend(current, w, x, part);
    if tail.None? {
      ExtendAhead(current, w, x, part, "");
      assert part + "" == part && x' + "" == x';
      MergeEnd(part, current, w', x');
    } else {
      ExtendAhead(current, w, x, part, ";" + tail.value);
      assert part + (";" + tail.value) == rest && x' + (";" + tail.value) == x' + ";" + tail.value;
      assert Split(rest)[1..] == Split(tail.value);
      PendingFacts(next, w', x');
      if Complete(next) {
        NothingPending();
        MergeIsScan(tail.value, "", "", "");
        CutPiece(x', tail.value);
      } else {
        Incomplete(next);
        MergeIsScan(tail.value, next, w', x');
        if next == "" {
          NothingPending();
          CutPiece("", tail.value);
        }
      }
    }
  }

  lemma CutPiece(x: string, rest: string)
    requires Guarded(x) && !Odd(x)
    ensures Pieces(x + ";" + rest, Stripped) == MapNonEmpty(Stripped, [x]) + Pieces(rest, Stripped)
    ensures x == "" ==> MapNonEmpty(Stripped, [x]) == []
  {
    hide Scan, Guarded, Quotes;
    ScanPiece(x, rest);
    MapAppend(Stripped, [x], Scan(rest, false, ""));
    MapOne(Stripped, x);
  }

  lemma NothingPending()
    ensures Pending("", "", "") && !Odd("")
  {
  }

  lemma Incomplete(next: string)
    requires !Complete(next)
    ensures next == "" || Odd(next) || Blank(next)
  {
    TrimBlank(next);
  }

  // ---------------------------------------------------------------------------
  // When the two agree exactly, and the round trip
  // ---------------------------------------------------------------------------

  /** Every piece is guarded; all but the last are balanced, and the last has the text's parity. */
  lemma {:induction false} ScanFacts(s: string, done: string)
    requires Guarded(done)
    ensures var ps := Scan(s, Odd(done), done);
      && (forall i :: 0 <= i < |ps| ==> Guarded(ps[i]))
      && (forall i :: 0 <= i < |ps| - 1 ==> !Odd(ps[i]))
      && (Odd(ps[|ps| - 1]) <==> Odd(done + s))
    decreases s
  {
    if s == "" {
      assert done + s == done;
    } else {
      QuotesSnoc(done, s[0]);
      assert done + s == (done + [s[0]]) + s[1..];
      if s[0] == ';' && !Odd(done) {
        ScanFacts(s[1..], "");
        assert "" + s[1..] == s[1..];
        QuotesAppend(done + [s[0]], s[1..]);
      } else {
        var more := done + [s[0]];
        forall i | 0 <= i < |more| && more[i] == ';' ensures Odd(more[..i]) {
          assert more[..i] == done[..i];
        }
        ScanFacts(s[1..], more);
      }
    }
  }

  /** On a guarded piece the extra semicolon stripping does nothing unless its trimmed text ends in
      one, which takes an unbalanced piece. */
  lemma StrippedPiece(x: string)
    requires Guarded(x)
    ensures Stripped(x) == Trim(x) <==> Trim(x) == "" || Trim(x)[|Trim(x)| - 1] != ';'
    ensures !Odd(x) ==> Stripped(x) == Trim(x)
    ensures |Stripped(x)| <= |Trim(x)|
  {
    GuardedTrim(x);
    var t := Trim(x);
    var a, b := TrimParts(x);
    TrimTight(t);
    DropTrailingShorter(t);
    var a', b' := TrimParts(DropTrailingSemicolons(t));
  }

  lemma {:induction false} DropTrailingShorter(t: string)
    ensures |DropTrailingSemicolons(t)| <= |t|
    ensures t != "" && t[|t| - 1] == ';' ==> |DropTrailingSemicolons(t)| < |t|
  {
    if t != "" && t[|t| - 1] == ';' {
      DropTrailingShorter(t[..|t| - 1]);
    }
  }

  lemma {:induction false} MapAppend(tidy: string -> string, a: seq<string>, b: seq<string>)
    ensures MapNonEmpty(tidy, a + b) == MapNonEmpty(tidy, a) + MapNonEmpty(tidy, b)
  {
    if a == [] {
      assert a + b == b;
    } else {
      assert (a + b)[1..] == a[1..] + b;
      MapAppend(tidy, a[1..], b);
    }
  }

  lemma {:induction false} MapAgrees(f: string -> string, g: string -> string, pieces: seq<string>)
    requires forall p :: p in pieces ==> f(p) == g(p)
    ensures MapNonEmpty(f, pieces) == MapNonEmpty(g, pieces)
  {
    if pieces != [] {
      MapAgrees(f, g, pieces[1..]);
    }
  }

  function LastPiece(s: string): string { var ps := Scan(s, false, ""); ps[|ps| - 1] }

  /** Two ways of tidying that agree on all pieces but the last agree altogether when they agree there. */
  lemma LastDecides(f: string -> string, g: string -> string, before: seq<string>, last: string)
    requires forall p :: p in before ==> f(p) == g(p)
    ensures MapNonEmpty(f, before + [last]) == MapNonEmpty(g, before + [last]) <==> f(last) == g(last)
  {
    hide MapNonEmpty;
    MapAppend(f, before, [last]);
    MapAppend(g, before, [last]);
    MapAgrees(f, g, before);
    MapOne(f, last);
    MapOne(g, last);
    AppendDecides(MapNonEmpty(f, before), MapNonEmpty(f, [last]), MapNonEmpty(g, [last]));
  }

  lemma AppendDecides(before: seq<string>, x: seq<string>, y: seq<string>)
    ensures before + x == before + y <==> x == y
  {
    assert (before + x)[|before|..] == x && (before + y)[|before|..] == y;
  }

  lemma MapOne(f: string -> string, x: string)
    ensures MapNonEmpty(f, [x]) == if f(x) == "" then [] else [f(x)]
  {
    assert [x][1..] == [];
  }

  predicate EndsInSemicolon(s: string) { s != "" && s[|s| - 1] == ';' }

  /** The splitter returns exactly the trimmed non-empty pieces of the scanner, if and only if the
      text has an even number of quotes or its unterminated last piece does not end in a semicolon. */
  lemma SplitterMeetsScanner(s: string)
    ensures Pieces(s, Stripped) == Pieces(s, Trim) <==> !Odd(s) || !EndsInSemicolon(Trim(LastPiece(s)))
  {
    hide Scan, MapNonEmpty, Stripped, Trim, Quotes, Guarded;
    NothingPending();
    var ps := Scan(s, false, "");
    var n := |ps| - 1;
    ScanFacts(s, "");
    assert "" + s == s;
    forall p | p in ps[..n] ensures Stripped(p) == Trim(p) {
      var i :| 0 <= i < n && ps[i] == p;
      StrippedPiece(p);
    }
    StrippedPiece(ps[n]);
    LastDecides(Stripped, Trim, ps[..n], ps[n]);
    assert ps == ps[..n] + [ps[n]];
  }

  /** No comment opens anywhere in `s`. */
  ghost predicate CommentFree(s: string) {
    forall i :: 0 <= i < |s| - 1 ==> !(s[i] == '-' && s[i + 1] == '-') && !(s[i] == '/' && s[i + 1] == '*')
  }

  lemma {:induction false} CleanIsIdentity(s: string)
    requires CommentFree(s)
    ensures Clean(s) == s
  {
    if s != "" {
      CleanIsIdentity(s[1..]);
    }
  }

  // ---------------------------------------------------------------------------
  // What stripping the comments does
  // ---------------------------------------------------------------------------

  ghost predicate Lacks(s: string, a: char, b: char) { forall i :: 0 <= i < |s| - 1 ==> !(s[i] == a && s[i + 1] == b) }

  predicate EndsIn(s: string, c: char) { s != "" && s[|s| - 1] == c }

  predicate StartsWith(s: string, c: char) { s != "" && s[0] == c }

  /** The line terminators of JavaScript. */
  const LINE_TERMINATORS := {'\n', '\r', '\U{2028}', '\U{2029}'}

  ghost predicate OneLine(s: string) { forall c :: c in s ==> !IsLineEnd(c) }

  /** Where a line ends: at the end of the text or before a line break. */
  predicate AtLineEnd(s: string) { s == "" || IsLineEnd(s[0]) }

  lemma {:induction false} BlocksPrefix(a: string, x: string)
    requires Lacks(a, '/', '*') && !(EndsIn(a, '/') && StartsWith(x, '*'))
    ensures StripBlocks(a + x) == a + StripBlocks(x)
  {
    if a == "" {
      assert a + x == x;
    } else {
      var s := a + x;
      assert s[1..] == a[1..] + x && s[0] == a[0];
      assert |a| > 1 ==> s[1] == a[1];
      assert |a| == 1 && x != "" ==> s[1] == x[0];
      BlocksPrefix(a[1..], x);
      assert [a[0]] + (a[1..] + StripBlocks(x)) == a + StripBlocks(x);
    }
  }

  lemma {:induction false} FirstClose(body: string, rest: string)
    requires Lacks(body, '*', '/')
    ensures AfterClose(body + "*/" + rest) == Some(|body| + 2)
  {
    var s := body + "*/" + rest;
    if body == "" {
      assert s[0] == '*' && s[1] == '/';
    } else {
      assert s[1..] == body[1..] + "*/" + rest && s[0] == body[0];
      assert s[1] == if |body| > 1 then body[1] else '*';
      FirstClose(body[1..], rest);
    }
  }

  lemma {:induction false} NoClose(s: string)
    requires Lacks(s, '*', '/')
    ensures AfterClose(s).None?
  {
    if s != "" {
      NoClose(s[1..]);
    }
  }

  /** Without the end of a block comment nothing is one. */
  lemma {:induction false} NoBlocks(s: string)
    requires Lacks(s, '*', '/')
    ensures StripBlocks(s) == s
  {
    if s != "" {
      NoBlocks(s[1..]);
      if |s| >= 2 {
        NoClose(s[2..]);
      }
    }
  }

  lemma BlockGoes(body: string, rest: string)
    requires Lacks(body, '*', '/')
    ensures StripBlocks("/*" + body + "*/" + rest) == StripBlocks(rest)
  {
    var s := "/*" + body + "*/" + rest;
    FirstClose(body, rest);
    assert s[2..] == body + "*/" + rest && s[0] == '/' && s[1] == '*';
    assert s[2 + (|body| + 2)..] == rest;
  }

  lemma {:induction false} SkipOneLine(body: string, rest: string)
    requires OneLine(body) && AtLineEnd(rest)
    ensures SkipLine(body + rest) == rest
  {
    if body == "" {
      assert body + rest == rest;
    } else {
      assert (body + rest)[1..] == body[1..] + rest && body[0] in body;
      SkipOneLine(body[1..], rest);
    }
  }

  /** A text that has a line end is skipped up to there, whatever follows it. */
  lemma {:induction false} SkipWithin(b: string, x: string) returns (n: nat)
    requires !OneLine(b)
    ensures n < |b| && SkipLine(b + x) == b[n..] + x
    ensures forall y :: SkipLine(b + y) == b[n..] + y
  {
    if IsLineEnd(b[0]) {
      n := 0;
      assert b[0..] == b;
      assert forall y :: (b + y)[0] == b[0];
    } else {
      assert !OneLine(b[1..]) by {
        var c :| c in b && IsLineEnd(c);
        assert b == [b[0]] + b[1..];
      }
      n := SkipWithin(b[1..], x);
      assert b[1..][n..] == b[n + 1..];
      forall y ensures SkipLine(b + y) == b[n + 1..] + y {
        assert (b + y)[1..] == b[1..] + y && (b + y)[0] == b[0];
      }
      n := n + 1;
    }
  }

  /** One step of line stripping within `a`, whatever follows it. */
  lemma LinesStep(a: string, x: string)
    requires a != "" && !EndsIn(a, '-')
    ensures StripLines(a + x) ==
      if Opens(a, '-', '-') then StripLines(SkipLine(a[2..] + x)) else [a[0]] + StripLines(a[1..] + x)
  {
    var s := a + x;
    assert s[0] == a[0] && s[1..] == a[1..] + x && (|a| > 1 ==> s[1] == a[1]);
    if Opens(a, '-', '-') {
      assert s[2..] == a[2..] + x;
    }
  }

  lemma OneLineParts(b: string, body: string)
    requires OneLine(b) && OneLine(body)
    ensures OneLine(b + "--" + body)
  {
  }

  /** Behind two earlier dashes: skipping their line skips the comment too, or stops before it. */
  lemma SkipBoth(b: string, body: string, rest: string) returns (n: nat)
    requires OneLine(body) && AtLineEnd(rest) && !EndsIn(b, '-')
    ensures n <= |b| && !EndsIn(b[n..], '-')
    ensures var x := "--" + body + rest;
      if n == |b| then SkipLine(b + x) == rest && SkipLine(b + rest) == rest
      else SkipLine(b + x) == b[n..] + x && SkipLine(b + rest) == b[n..] + rest
  {
    var x := "--" + body + rest;
    if OneLine(b) {
      assert b + x == (b + "--" + body) + rest;
      OneLineParts(b, body);
      hide OneLine, IsLineEnd, SkipLine, AtLineEnd;
      SkipOneLine(b + "--" + body, rest);
      SkipOneLine(b, rest);
      return |b|;
    }
    hide OneLine, IsLineEnd, SkipLine, AtLineEnd;
    n := SkipWithin(b, x);
    assert SkipLine(b + rest) == b[n..] + rest;
    assert b[n..][|b[n..]| - 1] == b[|b| - 1];
  }

  lemma LineGoesHere(body: string, rest: string)
    requires OneLine(body) && AtLineEnd(rest)
    ensures StripLines("--" + body + rest) == StripLines(rest)
  {
    SkipOneLine(body, rest);
    var s := "--" + body + rest;
    assert s[0] == '-' && s[1] == '-' && s[2..] == body + rest;
  }

  /** A line comment can be cut out of its line. */
  lemma {:induction false} LineGoes(a: string, body: string, rest: string)
    requires !EndsIn(a, '-') && OneLine(body) && AtLineEnd(rest)
    ensures StripLines(a + ("--" + body + rest)) == StripLines(a + rest)
    decreases |a|
  {
    hide OneLine, IsLineEnd, SkipLine, AtLineEnd, StripLines;
    var x := "--" + body + rest;
    if a == "" {
      assert a + x == x && a + rest == rest;
      LineGoesHere(body, rest);
    } else {
      LinesStep(a, x);
      LinesStep(a, rest);
      if Opens(a, '-', '-') {
        var n := SkipBoth(a[2..], body, rest);
        if n < |a[2..]| {
          LineGoes(a[2..][n..], body, rest);
        }
      } else {
        LineGoes(a[1..], body, rest);
      }
    }
  }

  /** A line comment, whatever it holds, can be cut out of a text, after line comments and text, as long as no
      block comment begins before its end. */
  lemma LineCommentCut(a: string, body: string, rest: string)
    requires !EndsIn(a, '-') && (forall c :: c in body ==> c !in LINE_TERMINATORS)
    requires rest == "" || rest[0] in LINE_TERMINATORS
    requires Lacks(a + "--" + body, '/', '*') || Lacks(a + "--" + body + rest, '*', '/')
    ensures Clean(a + "--" + body + rest) == Clean(a + rest)
  {
    assert OneLine(body) && AtLineEnd(rest);
    hide StripBlocks, StripLines, OneLine, AtLineEnd, IsLineEnd;
    var p := a + "--" + body;
    assert p + rest == a + "--" + body + rest;
    assert p + rest == a + ("--" + body + rest);
    assert p + StripBlocks(rest) == a + ("--" + body + StripBlocks(rest));
    if Lacks(p, '/', '*') {
      assert forall i :: 0 <= i < |a| ==> p[i] == a[i];
      BlocksPrefix(p, rest);
      BlocksPrefix(a, rest);
      LineEndStays(rest);
      LineGoes(a, body, StripBlocks(rest));
    } else {
      var s, t := p + rest, a + rest;
      assert forall i :: 0 <= i < |a| ==> s[i] == a[i];
      assert forall i :: 0 <= i < |rest| ==> s[|p| + i] == rest[i] && t[|a| + i] == rest[i];
      NoBlocks(s);
      forall i | 0 <= i < |t| - 1 ensures !(t[i] == '*' && t[i + 1] == '/') {
        if i >= |a| {
          assert s[|p| + i - |a|] == t[i] && s[|p| + i - |a| + 1] == t[i + 1];
        }
      }
      NoBlocks(t);
      LineGoes(a, body, rest);
    }
  }

  lemma LineEndStays(s: string)
    requires AtLineEnd(s)
    ensures AtLineEnd(StripBlocks(s))
  {
  }

  /** A block comment can be cut out of a text as long as none begins before it, and what stood around it does
      not make up the beginning of another. */
  lemma BlockCommentCut(a: string, body: string, rest: string)
    requires Lacks(a, '/', '*') && Lacks(body, '*', '/') && !(EndsIn(a, '/') && StartsWith(rest, '*'))
    ensures Clean(a + "/*" + body + "*/" + rest) == Clean(a + rest)
  {
    hide StripBlocks, StripLines;
    var x := "/*" + body + "*/" + rest;
    assert a + "/*" + body + "*/" + rest == a + x;
    BlocksPrefix(a, x);
    BlocksPrefix(a, rest);
    BlockGoes(body, rest);
  }

  /** No line comment is left. */
  lemma CleanHasNoDashes(sql: string)
    ensures Lacks(Clean(sql), '-', '-')
  {
    LinesHaveNoDashes(StripBlocks(sql));
  }

  lemma {:induction false} LinesHaveNoDashes(s: string)
    ensures Lacks(StripLines(s), '-', '-')
    ensures StripLines(s) != "" ==> s != "" && (StripLines(s)[0] == s[0] || IsLineEnd(StripLines(s)[0]))
    decreases |s|
  {
    if Opens(s, '-', '-') {
      SkippedToEnd(s[2..]);
      LinesHaveNoDashes(SkipLine(s[2..]));
    } else if s != "" {
      LinesHaveNoDashes(s[1..]);
      var r := StripLines(s[1..]);
      assert StripLines(s) == [s[0]] + r;
      assert forall i :: 0 < i < |r| + 1 ==> ([s[0]] + r)[i] == r[i - 1];
    }
  }

  /** A block comment that is closed: from the two characters at i to those before j. */
  predicate IsBlock(s: string, i: int, j: int) {
    0 <= i && i + 4 <= j <= |s| && s[i] == '/' && s[i + 1] == '*' && s[j - 2] == '*' && s[j - 1] == '/'
  }

  ghost predicate HasBlock(s: string) { exists i, j :: IsBlock(s, i, j) }

  lemma {:induction false} CloseFound(s: string)
    ensures AfterClose(s).None? <==> Lacks(s, '*', '/')
    ensures AfterClose(s).Some? ==> s[AfterClose(s).value - 2] == '*' && s[AfterClose(s).value - 1] == '/'
  {
    if s != "" {
      CloseFound(s[1..]);
      assert forall i :: 0 < i < |s| ==> s[i] == s[1..][i - 1];
      if |s| >= 2 && !Opens(s, '*', '/') && Lacks(s[1..], '*', '/') {
        assert Lacks(s, '*', '/');
      }
    }
  }

  lemma BlockCloses(s: string, j: int)
    requires IsBlock(s, 0, j)
    ensures AfterClose(s[2..]).Some?
  {
    CloseFound(s[2..]);
    assert s[2..][j - 4] == '*' && s[2..][j - 3] == '/';
  }

  lemma BlockAhead(s: string)
    ensures Opens(s, '/', '*') && AfterClose(s[2..]).Some? ==> HasBlock(s)
    ensures s != "" && !(Opens(s, '/', '*') && AfterClose(s[2..]).Some?) ==> (HasBlock(s) <==> HasBlock(s[1..]))
  {
    if Opens(s, '/', '*') {
      CloseFound(s[2..]);
      if AfterClose(s[2..]).Some? {
        assert IsBlock(s, 0, 2 + AfterClose(s[2..]).value);
      }
    }
    if s != "" && !(Opens(s, '/', '*') && AfterClose(s[2..]).Some?) {
      if i, j :| IsBlock(s, i, j) {
        if i == 0 {
          BlockCloses(s, j);
        }
        assert IsBlock(s[1..], i - 1, j - 1);
      }
      if i, j :| IsBlock(s[1..], i, j) {
        assert IsBlock(s, i + 1, j + 1);
      }
    }
  }

  /** Stripping block comments changes a text exactly when it has one, and then makes it shorter. */
  lemma {:induction false} BlocksShorten(s: string)
    ensures if HasBlock(s) then |StripBlocks(s)| < |s| else StripBlocks(s) == s
    decreases |s|
  {
    hide HasBlock, AfterClose;
    BlockAhead(s);
    if s == "" {
      assert !HasBlock(s) by { NothingIsABlock(); }
    } else if Opens(s, '/', '*') && AfterClose(s[2..]).Some? {
      BlocksShorten(s[2 + AfterClose(s[2..]).value..]);
    } else {
      BlocksShorten(s[1..]);
    }
  }

  lemma NothingIsABlock()
    ensures !HasBlock("")
  {
  }

  lemma {:induction false} LinesShorten(s: string)
    ensures |StripLines(s)| <= |s| && (Lacks(s, '-', '-') ==> StripLines(s) == s)
    decreases |s|
  {
    if s != "" {
      if Opens(s, '-', '-') {
        LinesShorten(SkipLine(s[2..]));
      } else {
        LinesShorten(s[1..]);
      }
    }
  }

  /** Stripping leaves a text as it is exactly if it has no two dashes and no block comment that is closed; one
      that is not closed stays. */
  lemma CleanIsIdentityIff(s: string)
    ensures Clean(s) == s <==> Lacks(s, '-', '-') && !HasBlock(s)
  {
    hide HasBlock, StripBlocks, StripLines, Lacks;
    BlocksShorten(s);
    LinesShorten(StripBlocks(s));
    CleanHasNoDashes(s);
  }

  lemma {:induction false} SkippedToEnd(s: string)
    ensures AtLineEnd(SkipLine(s))
  {
    if s != "" {
      SkippedToEnd(s[1..]);
    }
  }

  function Join(statements: seq<string>): string {
    if statements == [] then ""
    else if |statements| == 1 then statements[0]
    else statements[0] + ";" + Join(statements[1..])
  }

  /** A comment-free text has comment-free pieces. */
  lemma {:induction false} ScanCommentFree(s: string, quoted: bool, done: string)
    requires CommentFree(done + s)
    ensures forall p :: p in Scan(s, quoted, done) ==> CommentFree(p)
    decreases s
  {
    CommentFreeParts(done, s);
    if s != "" {
      var q := if s[0] == '\'' then !quoted else quoted;
      assert done + s == (done + [s[0]]) + s[1..];
      CommentFreeParts(done + [s[0]], s[1..]);
      assert "" + s[1..] == s[1..];
      if s[0] == ';' && !quoted {
        ScanCommentFree(s[1..], false, "");
        assert Scan(s, quoted, done) == [done] + Scan(s[1..], false, "");
      } else {
        ScanCommentFree(s[1..], q, done + [s[0]]);
        assert Scan(s, quoted, done) == Scan(s[1..], q, done + [s[0]]);
      }
    } else {
      assert done + s == done;
    }
  }

  lemma CommentFreeParts(a: string, b: string)
    requires CommentFree(a + b)
    ensures CommentFree(a) && CommentFree(b)
  {
    var s := a + b;
    forall i | 0 <= i < |a| - 1 ensures !(a[i] == '-' && a[i + 1] == '-') && !(a[i] == '/' && a[i + 1] == '*') {
      assert s[i] == a[i] && s[i + 1] == a[i + 1];
    }
    forall i | 0 <= i < |b| - 1 ensures !(b[i] == '-' && b[i + 1] == '-') && !(b[i] == '/' && b[i + 1] == '*') {
      assert s[|a| + i] == b[i] && s[|a| + i + 1] == b[i + 1];
    }
  }

  /** A statement as the splitter returns it. */
  ghost predicate Statement(s: string) {
    s != "" && Tight(s) && CommentFree(s) && !Odd(s) && Guarded(s)
  }

  /** The scanner only cuts: its pieces joined by semicolons are the text. */
  lemma {:induction false} ScanOnlyCuts(s: string, quoted: bool, done: string)
    ensures Join(Scan(s, quoted, done)) == done + s
    decreases s
  {
    if s != "" {
      if s[0] == ';' && !quoted {
        ScanOnlyCuts(s[1..], false, "");
        assert ([done] + Scan(s[1..], false, ""))[1..] == Scan(s[1..], false, "");
        assert done + ";" + ("" + s[1..]) == done + s;
      } else {
        ScanOnlyCuts(s[1..], if s[0] == '\'' then !quoted else quoted, done + [s[0]]);
        assert (done + [s[0]]) + s[1..] == done + s;
      }
    }
  }

  lemma {:induction false} JoinScans(statements: seq<string>)
    requires forall i :: 0 <= i < |statements| ==> Statement(statements[i])
    ensures CommentFree(Join(statements)) && !Odd(Join(statements))
    ensures Pieces(Join(statements), Trim) == statements
  {
    if statements != [] {
      var x, rest := statements[0], statements[1..];
      JoinScans(rest);
      TrimTight(x);
      ScanPiece(x, Join(rest));
      assert [x] + rest == statements;
      if rest == [] {
        assert [x][1..] == [];
      } else {
        QuotesSnoc(x, ';');
        QuotesAppend(x + ";", Join(rest));
        assert ([x] + Scan(Join(rest), false, ""))[1..] == Scan(Join(rest), false, "");
        var j := x + ";" + Join(rest);
        forall i | 0 <= i < |j| - 1 ensures !(j[i] == '-' && j[i + 1] == '-') && !(j[i] == '/' && j[i + 1] == '*') {
          if i > |x| {
            assert j[i] == Join(rest)[i - |x| - 1] && j[i + 1] == Join(rest)[i - |x|];
          }
        }
      }
    } else {
      TrimTight("");
      assert Scan("", false, "") == [""];
    }
  }

  lemma {:induction false} TrimmedStatements(pieces: seq<string>)
    requires forall p :: p in pieces ==> Guarded(p) && !Odd(p) && CommentFree(p)
    ensures forall r :: r in MapNonEmpty(Trim, pieces) ==> Statement(r)
  {
    if pieces != [] {
      assert pieces[0] in pieces;
      TrimmedStatements(pieces[1..]);
      GuardedTrim(pieces[0]);
      var a, b := TrimParts(pieces[0]);
      CommentFreeParts(a + Trim(pieces[0]), b);
      CommentFreeParts(a, Trim(pieces[0]));
    }
  }

  lemma PiecesAreStatements(sql: string)
    requires CommentFree(sql) && !Odd(sql)
    ensures forall r :: r in Pieces(sql, Trim) ==> Statement(r)
  {
    ScanFacts(sql, "");
    assert "" + sql == sql;
    ScanCommentFree(sql, false, "");
    TrimmedStatements(Scan(sql, false, ""));
  }

  /** Joining statements with semicolons and splitting gives them back. */
  lemma SplitUndoesJoin(statements: seq<string>)
    requires forall r :: r in statements ==> Statement(r)
    ensures Merge(Split(Clean(Join(statements))), "") == statements
  {
    JoinScans(statements);
    CleanIsIdentity(Join(statements));
    MergeIsScan(Join(statements), "", "", "");
    SplitterMeetsScanner(Join(statements));
  }

  /** Splitting, joining and splitting again changes nothing, for balanced comment-free text. */
  lemma SplitIsStable(sql: string)
    requires CommentFree(sql) && !Odd(sql)
    ensures var r := Merge(Split(Clean(sql)), ""); Merge(Split(Clean(Join(r))), "") == r
  {
    CleanIsIdentity(sql);
    MergeIsScan(sql, "", "", "");
    SplitterMeetsScanner(sql);
    hide Merge, Split, Clean, Statement, CommentFree, Odd;
    PiecesAreStatements(sql);
    SplitUndoesJoin(Pieces(sql, Trim));
  }

  /** A statement with a comment behind it, whatever that holds, comes back alone. */
  lemma CommentIsDropped(s: string, body: string)
    requires Statement(s)
    ensures !EndsIn(s, '-') && OneLine(body) && Lacks(body, '/', '*') ==>
      Pieces(Clean(s + "--" + body), Stripped) == [s]
    ensures Lacks(body, '*', '/') ==> Pieces(Clean(s + "/*" + body + "*/"), Stripped) == [s]
  {
    assert s + "" == s;
    JoinScans([s]);
    CleanIsIdentity(s);
    SplitterMeetsScanner(s);
    hide Clean, Pieces, Stripped, Odd, Guarded;
    if !EndsIn(s, '-') && OneLine(body) && Lacks(body, '/', '*') {
      var p := s + "--" + body;
      assert forall i :: 0 <= i < |s| ==> p[i] == s[i];
      assert forall i :: 0 <= i < |body| ==> p[|s| + 2 + i] == body[i];
      forall i | 0 <= i < |p| - 1 ensures !(p[i] == '/' && p[i + 1] == '*') {
        if i >= |s| + 2 {
          assert p[i] == body[i - |s| - 2] && p[i + 1] == body[i - |s| - 1];
        }
      }
      LineCommentCut(s, body, "");
      assert p + "" == p;
    }
    if Lacks(body, '*', '/') {
      BlockCommentCut(s, body, "");
      assert s + "/*" + body + "*/" + "" == s + "/*" + body + "*/";
    }
  }

  lemma {:induction false} StrippedAreTight(pieces: seq<string>)
    ensures forall r :: r in MapNonEmpty(Stripped, pieces) ==> r != "" && Tight(r)
  {
    if pieces != [] {
      StrippedAreTight(pieces[1..]);
      var a, b := TrimParts(DropTrailingSemicolons(Trim(pieces[0])));
    }
  }

  method SplitSqlStatements(sql: string) returns (result: seq<string>)
    ensures result == Pieces(Clean(sql), Stripped)
    ensures !Odd(Clean(sql)) ==> result == Pieces(Clean(sql), Trim)
    ensures forall r :: r in result ==> r != "" && !IsSpace(r[0]) && !IsSpace(r[|r| - 1])
  {
    hide Trim, Split, Clean, DropLeadingSemicolons, DropTrailingSemicolons, Pieces;
    var cleanSql := Clean(sql);
    var rawParts := Split(cleanSql);
    result := [];
    var current := "";
    for i := 0 to |rawParts|
      invariant result + Merge(rawParts[i..], current) == Merge(rawParts, "")
    {
      current := current + (if current == "" then "" else ";") + rawParts[i];
      var singleQuotes := Quotes(current);
      if singleQuotes % 2 == 0 && |Trim(current)| > 0 {
        var trimmed := Trim(DropTrailingSemicolons(DropLeadingSemicolons(Trim(current))));
        if trimmed != "" {
          result := result + [trimmed];
        }
        current := "";
      }
    }
    if |Trim(current)| > 0 {
      var trimmed := Trim(DropTrailingSemicolons(DropLeadingSemicolons(Trim(current))));
      if trimmed != "" {
        result := result + [trimmed];
      }
    }
    NothingPending();
    MergeIsScan(cleanSql, "", "", "");
    SplitterMeetsScanner(cleanSql);
    StrippedAreTight(Scan(cleanSql, false, ""));
    assert result == MapNonEmpty(Stripped, Scan(cleanSql, false, "")) by { PiecesAre(cleanSql); }
  }

  lemma PiecesAre(s: string)
    ensures Pieces(s, Stripped) == MapNonEmpty(Stripped, Scan(s, false, ""))
  {
  }
}
