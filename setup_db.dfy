/** The schema bootstrap: splitting the schema file into statements and running
    them one by one, skipping "already exists" errors and stopping at any other. */
module SetupDb {
  import opened Base

  // ---------------------------------------------------------------- splitSql

  predicate IsNewline(c: char) {
    c == '\r' || c == '\n'
  }

  /** From k on, blanks and then a CR or LF: what `\s*[\r\n]+` needs to match at k. */
  predicate NewlineAfterBlanks(s: string, k: nat)
    decreases |s| - k
  {
    k < |s| && (IsNewline(s[k]) || (IsSpace(s[k]) && NewlineAfterBlanks(s, k + 1)))
  }

  /** A match of `/;\s*[\r\n]+/` starts at j. */
  predicate SepAt(s: string, j: nat) {
    j < |s| && s[j] == ';' && NewlineAfterBlanks(s, j + 1)
  }

  predicate HasSep(s: string) {
    exists j: nat :: j < |s| && SepAt(s, j)
  }

  /** What the regular expression removes: a ';', blanks, ending in a CR or LF. */
  predicate IsSep(t: string) {
    |t| >= 2 && t[0] == ';' && AllSpace(t[1..]) && IsNewline(t[|t| - 1])
  }

  lemma {:induction false} NewlineAfterBlanksPrefix(s: string, i: nat, k: nat)
    requires i <= |s| && NewlineAfterBlanks(s[..i], k)
    ensures NewlineAfterBlanks(s, k)
    decreases i - k
  {
    if !IsNewline(s[..i][k]) {
      NewlineAfterBlanksPrefix(s, i, k + 1);
    }
  }

  /** The first j >= from where a separator starts, or -1. */
  function FirstSep(s: string, from: nat): (j: int)
    ensures j == -1 || (from <= j < |s| && SepAt(s, j))
    ensures forall m: nat :: from <= m < |s| && (j == -1 || m < j) ==> !SepAt(s, m)
    decreases |s| - from
  {
    if from >= |s| then -1
    else if SepAt(s, from) then from
    else FirstSep(s, from + 1)
  }

  lemma FirstSepFinds(s: string)
    ensures FirstSep(s, 0) != -1 ==> HasSep(s)
  {
    var j := FirstSep(s, 0);
    if j != -1 {
      var m: nat := j;
      assert SepAt(s, m);
    }
  }

  /** Where the match that starts with the blanks at k ends: after the last CR or
      LF of the run of blanks (the greedy `\s*` gives back what follows it). `last`
      is the end found so far. */
  function MatchEnd(s: string, k: nat, last: nat): (e: nat)
    requires last <= k <= |s|
    requires NewlineAfterBlanks(s, k) || (last >= 1 && IsNewline(s[last - 1]))
    ensures k <= e <= |s| || (e == last && e >= 1)
    ensures e >= 1 && IsNewline(s[e - 1])
    ensures e == last || k < e
    decreases |s| - k
  {
    if k < |s| && IsSpace(s[k]) then
      MatchEnd(s, k + 1, if IsNewline(s[k]) then k + 1 else last)
    else last
  }

  /** Every character from a to b is blank. */
  lemma {:induction false} MatchEndBlanks(s: string, k: nat, last: nat)
    requires last <= k <= |s|
    requires NewlineAfterBlanks(s, k) || (last >= 1 && IsNewline(s[last - 1]))
    ensures MatchEnd(s, k, last) <= k ==> MatchEnd(s, k, last) == last
    ensures forall m :: k <= m < MatchEnd(s, k, last) ==> IsSpace(s[m])
    decreases |s| - k
  {
    if k < |s| && IsSpace(s[k]) {
      MatchEndBlanks(s, k + 1, if IsNewline(s[k]) then k + 1 else last);
    }
  }

  /** The end of the separator that starts at j. */
  function SepEnd(s: string, j: nat): (e: nat)
    requires SepAt(s, j)
    ensures j + 2 <= e <= |s| && IsSep(s[j..e])
  {
    var e := MatchEnd(s, j + 1, j + 1);
    MatchEndBlanks(s, j + 1, j + 1);
    assert e != j + 1 by {
      assert !IsNewline(s[j]);
    }
    SepSlice(s, j, e);
    e
  }

  /** A ';', blanks and a final CR or LF from j to e form a separator. */
  lemma SepSlice(s: string, j: nat, e: nat)
    requires j + 2 <= e <= |s| && s[j] == ';' && IsNewline(s[e - 1])
    requires forall m :: j + 1 <= m < e ==> IsSpace(s[m])
    ensures IsSep(s[j..e])
  {
    var t := s[j..e];
    assert forall m :: 1 <= m < |t| ==> t[m] == s[j + m];
  }

  /** The pieces `split` returns and the separators it removed between them. */
  datatype Cut = Cut(pieces: seq<string>, seps: seq<string>)

  /** The pieces and separators put back together. */
  function Glue(pieces: seq<string>, seps: seq<string>): string
    requires |pieces| == |seps| + 1
    decreases |seps|
  {
    if seps == [] then pieces[0] else pieces[0] + seps[0] + Glue(pieces[1..], seps[1..])
  }

  /** `sqlText.split(/;\s*[\r\n]+/g)`: the text is exactly its pieces joined by the
      separators; every separator is a ';' then blanks ending at a line break, and
      no piece holds one, so a ';' inside a line or at the end of the text stays. */
  function CutText(s: string): (c: Cut)
    ensures |c.pieces| == |c.seps| + 1
    ensures Glue(c.pieces, c.seps) == s
    ensures forall i :: 0 <= i < |c.seps| ==> IsSep(c.seps[i])
    ensures forall i :: 0 <= i < |c.pieces| ==> !HasSep(c.pieces[i])
    decreases |s|
  {
    var j := FirstSep(s, 0);
    if j == -1 then
      Cut([s], [])
    else
      var e := SepEnd(s, j);
      var rest := CutText(s[e..]);
      HeadNoSep(s, j);
      var c := Cut([s[..j]] + rest.pieces, [s[j..e]] + rest.seps);
      CutCons(s, j, e, rest, c);
      c
  }

  /** Before the first separator, the text holds none. */
  lemma HeadNoSep(s: string, j: nat)
    requires j <= |s| && forall m: nat :: m < |s| && m < j ==> !SepAt(s, m)
    ensures !HasSep(s[..j])
  {
    var head := s[..j];
    forall m: nat | m < |head| ensures !SepAt(head, m) {
      if SepAt(head, m) {
        NewlineAfterBlanksPrefix(s, j, m + 1);
        assert SepAt(s, m);
      }
    }
  }

  /** A piece, a separator and the cut of the rest make a cut of the whole. */
  lemma CutCons(s: string, j: nat, e: nat, rest: Cut, c: Cut)
    requires j < e <= |s| && IsSep(s[j..e]) && !HasSep(s[..j])
    requires |rest.pieces| == |rest.seps| + 1 && Glue(rest.pieces, rest.seps) == s[e..]
    requires forall i :: 0 <= i < |rest.seps| ==> IsSep(rest.seps[i])
    requires forall i :: 0 <= i < |rest.pieces| ==> !HasSep(rest.pieces[i])
    requires c == Cut([s[..j]] + rest.pieces, [s[j..e]] + rest.seps)
    ensures |c.pieces| == |c.seps| + 1
    ensures Glue(c.pieces, c.seps) == s
    ensures forall i :: 0 <= i < |c.seps| ==> IsSep(c.seps[i])
    ensures forall i :: 0 <= i < |c.pieces| ==> !HasSep(c.pieces[i])
  {
    assert s == s[..j] + s[j..e] + s[e..];
    assert c.pieces[1..] == rest.pieces && c.seps[1..] == rest.seps;
  }

  /** `.map(s => s.trim()).filter(Boolean)` */
  function TrimAll(pieces: seq<string>): (r: seq<string>)
    ensures forall i :: 0 <= i < |r| ==> r[i] != "" && Trim(r[i]) == r[i]
    ensures forall x :: x in r <==> x != "" && exists p :: p in pieces && Trim(p) == x
    ensures |r| <= |pieces|
  {
    if pieces == [] then []
    else
      var t := Trim(pieces[0]);
      var rest := TrimAll(pieces[1..]);
      var r := if t == "" then rest else [t] + rest;
      TrimIdempotent(pieces[0]);
      TrimmedCons(t, rest, r);
      TrimsCons(pieces, t, rest, r);
      r
  }

  /** One step of TrimAll keeps its pieces trimmed and not empty. */
  lemma TrimmedCons(t: string, rest: seq<string>, r: seq<string>)
    requires Trim(t) == t
    requires r == if t == "" then rest else [t] + rest
    requires forall i :: 0 <= i < |rest| ==> rest[i] != "" && Trim(rest[i]) == rest[i]
    ensures forall i :: 0 <= i < |r| ==> r[i] != "" && Trim(r[i]) == r[i]
  {
    if t != "" {
      forall i | 0 <= i < |r| ensures r[i] != "" && Trim(r[i]) == r[i] {
        if i == 0 {
          assert r[0] == t;
        } else {
          assert r[i] == rest[i - 1];
        }
      }
    }
  }

  /** One step of TrimAll keeps "the trims that are not empty". */
  lemma TrimsCons(pieces: seq<string>, t: string, rest: seq<string>, r: seq<string>)
    requires pieces != [] && t == Trim(pieces[0])
    requires r == if t == "" then rest else [t] + rest
    requires forall x :: x in rest <==> x != "" && exists p :: p in pieces[1..] && Trim(p) == x
    ensures forall x :: x in r <==> x != "" && exists p :: p in pieces && Trim(p) == x
  {
    forall x ensures x in r <==> x != "" && exists p :: p in pieces && Trim(p) == x {
      if x in r {
        if t != "" && x == t {
          assert pieces[0] in pieces;
        } else {
          assert x in rest;
          var p :| p in pieces[1..] && Trim(p) == x;
          assert p in pieces;
        }
      }
      if x != "" && exists p :: p in pieces && Trim(p) == x {
        var p :| p in pieces && Trim(p) == x;
        if p == pieces[0] {
          assert r[0] == x;
        } else {
          assert p in pieces[1..];
          assert x in rest;
        }
      }
    }
  }

  /** splitSql: the trimmed, non-empty pieces, in the order they appear. */
  function SplitSql(text: string): (r: seq<string>)
    ensures forall i :: 0 <= i < |r| ==> r[i] != "" && Trim(r[i]) == r[i]
    ensures forall x :: x in r <==> x != "" && exists p :: p in CutText(text).pieces && Trim(p) == x
  {
    TrimAll(CutText(text).pieces)
  }

  /** A text without any separator is one statement (when not blank). */
  lemma NoSeparatorOneStatement(text: string)
    requires !HasSep(text) && Trim(text) != ""
    ensures SplitSql(text) == [Trim(text)]
  {
    FirstSepFinds(text);
    assert [text][1..] == [];
  }

  /** TrimAll keeps the order of the pieces: the statements of two runs of pieces
      are those of the first run followed by those of the second. */
  lemma {:induction false} TrimAllConcat(a: seq<string>, b: seq<string>)
    ensures TrimAll(a + b) == TrimAll(a) + TrimAll(b)
    decreases |a|
  {
    if a == [] {
      assert a + b == b;
    } else {
      assert (a + b)[0] == a[0];
      assert (a + b)[1..] == a[1..] + b;
      TrimAllConcat(a[1..], b);
    }
  }

  /** `\s*[\r\n]+` matches at |w| + k of w + t exactly when it matches at k of t. */
  lemma {:induction false} NewlineAfterBlanksShift(w: string, t: string, k: nat)
    requires k <= |t|
    ensures NewlineAfterBlanks(w + t, |w| + k) == NewlineAfterBlanks(t, k)
    decreases |t| - k
  {
    if k < |t| {
      NewlineAfterBlanksShift(w, t, k + 1);
    }
  }

  lemma SepAtShift(w: string, t: string, k: nat)
    ensures SepAt(w + t, |w| + k) == SepAt(t, k)
  {
    if k < |t| {
      NewlineAfterBlanksShift(w, t, k + 1);
    }
  }

  /** Blanks ending in a line break from k to q: the run `\s*[\r\n]+` needs is
      there, and the greedy match ends no earlier than q. */
  lemma {:induction false} MatchEndAtLeast(s: string, k: nat, last: nat, q: nat)
    requires last <= k < q <= |s|
    requires forall i :: k <= i < q ==> IsSpace(s[i])
    requires IsNewline(s[q - 1])
    ensures NewlineAfterBlanks(s, k)
    ensures MatchEnd(s, k, last) >= q
    decreases q - k
  {
    if k + 1 < q {
      MatchEndAtLeast(s, k + 1, if IsNewline(s[k]) then k + 1 else last, q);
    }
  }

  lemma {:induction false} MatchEndShift(w: string, t: string, k: nat, last: nat)
    requires last <= k <= |t|
    requires NewlineAfterBlanks(t, k) || (last >= 1 && IsNewline(t[last - 1]))
    ensures NewlineAfterBlanks(w + t, |w| + k) || (|w| + last >= 1 && IsNewline((w + t)[|w| + last - 1]))
    ensures MatchEnd(w + t, |w| + k, |w| + last) == |w| + MatchEnd(t, k, last)
    decreases |t| - k
  {
    NewlineAfterBlanksShift(w, t, k);
    if k < |t| && IsSpace(t[k]) {
      MatchEndShift(w, t, k + 1, if IsNewline(t[k]) then k + 1 else last);
    }
  }

  /** Blanks in front of a text move the first separator and its end along. */
  lemma FirstSepShift(w: string, t: string)
    requires AllSpace(w)
    ensures var j := FirstSep(t, 0);
      && FirstSep(w + t, 0) == (if j == -1 then -1 else |w| + j)
      && (j != -1 ==> SepEnd(w + t, |w| + j) == |w| + SepEnd(t, j))
  {
    var s := w + t;
    forall m: nat | m < |s| ensures SepAt(s, m) == (m >= |w| && SepAt(t, m - |w|)) {
      if m >= |w| {
        SepAtShift(w, t, m - |w|);
      }
    }
    var j := FirstSep(t, 0);
    if j != -1 {
      assert SepAt(s, |w| + j);
      MatchEndShift(w, t, j + 1, j + 1);
    }
  }

  /** The first piece of a cut, and the cut of what follows the first separator. */
  lemma CutTextFirst(s: string)
    ensures FirstSep(s, 0) == -1 ==> CutText(s).pieces == [s]
    ensures FirstSep(s, 0) != -1 ==>
      CutText(s).pieces == [s[..FirstSep(s, 0)]] + CutText(s[SepEnd(s, FirstSep(s, 0))..]).pieces
  {
  }

  /** The cut of a text whose first separator starts at j. */
  lemma CutTextAt(s: string, j: nat, head: string, after: string)
    requires FirstSep(s, 0) == j
    requires head == s[..j] && after == s[SepEnd(s, j)..]
    ensures CutText(s).pieces == [head] + CutText(after).pieces
  {
    CutTextFirst(s);
  }

  /** The statement of a single piece. */
  lemma TrimAllOne(x: string)
    ensures TrimAll([x]) == if Trim(x) == "" then [] else [Trim(x)]
  {
    assert [x][1..] == [];
  }

  /** Blanks in front of a text join its first piece and change no other. */
  lemma CutTextBlanks(w: string, t: string)
    requires AllSpace(w)
    ensures CutText(w + t).pieces == [w + CutText(t).pieces[0]] + CutText(t).pieces[1..]
  {
    FirstSepShift(w, t);
    if FirstSep(t, 0) == -1 {
      CutTextFirst(w + t);
      CutTextFirst(t);
    } else {
      CutTextBlanksSep(w, t, FirstSep(t, 0));
      CutTextFirst(t);
    }
  }

  lemma CutTextBlanksSep(w: string, t: string, j: nat)
    requires j < |t| && SepAt(t, j) && FirstSep(t, 0) == j
    requires FirstSep(w + t, 0) == |w| + j && SepEnd(w + t, |w| + j) == |w| + SepEnd(t, j)
    ensures CutText(w + t).pieces == [w + t[..j]] + CutText(t[SepEnd(t, j)..]).pieces
  {
    SliceShift(w, t, j, SepEnd(t, j));
    CutTextAt(w + t, |w| + j, w + t[..j], t[SepEnd(t, j)..]);
  }

  lemma SliceShift(w: string, t: string, j: nat, e: nat)
    requires j <= e <= |t|
    ensures (w + t)[..|w| + j] == w + t[..j]
    ensures (w + t)[|w| + e..] == t[e..]
  {
  }

  /** Blanks in front of a text give the same statements. */
  lemma SplitSqlBlanks(w: string, t: string)
    requires AllSpace(w)
    ensures SplitSql(w + t) == SplitSql(t)
  {
    CutTextBlanks(w, t);
    var ps := CutText(t).pieces;
    TrimBlankPrefix(w, ps[0]);
    TrimAllConcat([w + ps[0]], ps[1..]);
    TrimAllConcat([ps[0]], ps[1..]);
    TrimAllOne(w + ps[0]);
    TrimAllOne(ps[0]);
    assert ps == [ps[0]] + ps[1..];
  }

  /** A match of `\s*[\r\n]+` from k of p + t, where t starts with ';', lies
      inside p. */
  lemma {:induction false} NewlineAfterBlanksBefore(p: string, t: string, k: nat)
    requires k <= |p| && t != [] && t[0] == ';' && NewlineAfterBlanks(p + t, k)
    ensures k < |p| && NewlineAfterBlanks(p, k)
    decreases |p| - k
  {
    if k < |p| && !IsNewline(p[k]) {
      NewlineAfterBlanksBefore(p, t, k + 1);
    }
  }

  /** After a piece without a separator, the first separator is the one that
      follows it. */
  lemma FirstSepAfterPiece(p: string, sep: string, rest: string)
    requires !HasSep(p) && IsSep(sep)
    ensures FirstSep(p + sep + rest, 0) == |p|
  {
    var t := sep + rest;
    var s := p + t;
    assert p + sep + rest == s;
    MatchEndAtLeast(t, 1, 1, |sep|);
    SepAtShift(p, t, 0);
    assert SepAt(s, |p|);
    forall m: nat | m < |p| ensures !SepAt(s, m) {
      if SepAt(s, m) {
        NewlineAfterBlanksBefore(p, t, m + 1);
        assert SepAt(p, m);
      }
    }
  }

  /** The greedy match of that separator takes the separator and then only blanks
      of the rest: m of them. */
  lemma SepEndAfterPiece(p: string, sep: string, rest: string) returns (m: nat)
    requires !HasSep(p) && IsSep(sep)
    requires SepAt(p + sep + rest, |p|)
    ensures m <= |rest| && SepEnd(p + sep + rest, |p|) == |p| + |sep| + m
    ensures AllSpace(rest[..m])
  {
    var s := p + sep + rest;
    var e := SepEnd(s, |p|);
    MatchEndAtLeast(s, |p| + 1, |p| + 1, |p| + |sep|);
    MatchEndBlanks(s, |p| + 1, |p| + 1);
    m := e - |p| - |sep|;
    assert forall i :: 0 <= i < m ==> rest[..m][i] == s[|p| + |sep| + i];
  }

  /** The cut of p + sep + rest: p, then the pieces of what the match leaves. */
  lemma CutTextAfterPiece(p: string, sep: string, rest: string, m: nat)
    requires m <= |rest| && FirstSep(p + sep + rest, 0) == |p|
    requires SepAt(p + sep + rest, |p|) && SepEnd(p + sep + rest, |p|) == |p| + |sep| + m
    ensures CutText(p + sep + rest).pieces == [p] + CutText(rest[m..]).pieces
  {
    PieceSlices(p, sep, rest, m);
    CutTextAt(p + sep + rest, |p|, p, rest[m..]);
  }

  lemma PieceSlices(p: string, sep: string, rest: string, m: nat)
    requires m <= |rest|
    ensures (p + sep + rest)[..|p|] == p
    ensures (p + sep + rest)[|p| + |sep| + m..] == rest[m..]
  {
  }

  /** A piece without a separator, a separator and the rest: the piece gives its
      statement (if any) and the rest gives the others, in order. */
  lemma SplitSqlCons(p: string, sep: string, rest: string)
    requires !HasSep(p) && IsSep(sep)
    ensures SplitSql(p + sep + rest) == TrimAll([p]) + SplitSql(rest)
  {
    FirstSepAfterPiece(p, sep, rest);
    var m := SepEndAfterPiece(p, sep, rest);
    SplitSqlAfterPiece(p, sep, rest, m);
    SplitSqlSkipBlanks(rest, m);
  }

  lemma SplitSqlAfterPiece(p: string, sep: string, rest: string, m: nat)
    requires m <= |rest| && FirstSep(p + sep + rest, 0) == |p|
    requires SepAt(p + sep + rest, |p|) && SepEnd(p + sep + rest, |p|) == |p| + |sep| + m
    ensures SplitSql(p + sep + rest) == TrimAll([p]) + SplitSql(rest[m..])
  {
    CutTextAfterPiece(p, sep, rest, m);
    TrimAllConcat([p], CutText(rest[m..]).pieces);
  }

  lemma SplitSqlSkipBlanks(t: string, m: nat)
    requires m <= |t| && AllSpace(t[..m])
    ensures SplitSql(t) == SplitSql(t[m..])
  {
    assert t == t[..m] + t[m..];
    SplitSqlBlanks(t[..m], t[m..]);
  }

  /** splitSql gives back exactly the trimmed, non-empty pieces of any text glued
      from pieces without a separator and separators: in their order, each as
      often as it occurs. */
  lemma {:induction false} SplitGlue(pieces: seq<string>, seps: seq<string>)
    requires |pieces| == |seps| + 1
    requires forall i :: 0 <= i < |seps| ==> IsSep(seps[i])
    requires forall i :: 0 <= i < |pieces| ==> !HasSep(pieces[i])
    ensures SplitSql(Glue(pieces, seps)) == TrimAll(pieces)
    decreases |seps|
  {
    if seps == [] {
      FirstSepFinds(pieces[0]);
      assert CutText(pieces[0]).pieces == pieces;
    } else {
      SplitGlue(pieces[1..], seps[1..]);
      SplitSqlCons(pieces[0], seps[0], Glue(pieces[1..], seps[1..]));
      assert pieces == [pieces[0]] + pieces[1..];
      TrimAllConcat([pieces[0]], pieces[1..]);
    }
  }

  // ---------------------------------------------------------------- running the statements

  /** The MySQL error codes that mean "already exists" and are skipped. */
  const NonFatalCodes: set<string> := {"ER_DB_CREATE_EXISTS", "ER_TABLE_EXISTS_ERROR", "ER_DUP_FIELDNAME",
                                       "ER_DUP_KEYNAME", "ER_CANNOT_ADD_FOREIGN", "ER_TRG_ALREADY_EXISTS"}

  /** A statement's error code, or None when it succeeded. */
  predicate Fatal(error: Option<string>) {
    error.Some? && error.value !in NonFatalCodes
  }

  /** The index of the first statement whose error is fatal, or -1. */
  function FirstFatal(errors: seq<Option<string>>): (k: int)
    ensures k == -1 || (0 <= k < |errors| && Fatal(errors[k]))
    ensures forall i :: 0 <= i < |errors| && (k == -1 || i < k) ==> !Fatal(errors[i])
  {
    if errors == [] then -1
    else if Fatal(errors[0]) then 0
    else
      var k := FirstFatal(errors[1..]);
      assert forall i :: 1 <= i < |errors| ==> errors[i] == errors[1..][i - 1];
      if k == -1 then -1 else k + 1
  }

  /** The database's answer to each of n statements; a missing entry is success. */
  function Responses(errors: seq<Option<string>>, n: nat): (r: seq<Option<string>>)
    ensures |r| == n
    ensures forall i :: 0 <= i < n ==> r[i] == if i < |errors| then errors[i] else None
  {
    seq(n, i requires 0 <= i < n => if i < |errors| then errors[i] else None)
  }

  datatype Env = Env(host: Option<string>, user: Option<string>, name: Option<string>)

  datatype Outcome =
    | MissingEnv
    | MissingSchemaFile
    | Applied(skipped: seq<nat>)
    | Failed(number: nat, code: string)

  /** What the statement loop leaves behind. It runs the statements in order,
      skipping every error in NonFatalCodes and stopping at the first other one.
      r says what happened; sent holds every statement up to and including the
      first fatal one, and none after it. errors[i] is what the database answers
      to the i-th statement (a missing entry is success); statement numbers count
      from 1, as `idx` does. */
  ghost predicate RanStatements(statements: seq<string>, errors: seq<Option<string>>, r: Outcome, sent: seq<string>) {
    var resp := Responses(errors, |statements|);
    var k := FirstFatal(resp);
    && (k == -1 ==> r.Applied? && sent == statements &&
                    forall i :: i in r.skipped <==> 1 <= i <= |statements| && resp[i - 1].Some?)
    && (k >= 0 ==> r == Failed(k + 1, resp[k].value) && sent == statements[..k + 1])
  }

  /** The `for (const sql of statements)` loop of ensureDatabaseAndSchema. */
  method RunStatements(statements: seq<string>, errors: seq<Option<string>>)
    returns (r: Outcome, sent: seq<string>)
    ensures RanStatements(statements, errors, r, sent)
  {
    ghost var resp := Responses(errors, |statements|);
    sent := [];
    var skipped: seq<nat> := [];
    var idx := 0;
    while idx < |statements|
      invariant 0 <= idx <= |statements|
      invariant sent == statements[..idx]
      invariant forall i :: 0 <= i < idx ==> !Fatal(resp[i])
      invariant forall i :: i in skipped <==> 1 <= i <= idx && resp[i - 1].Some?
    {
      var sql := statements[idx];
      idx := idx + 1;
      sent := sent + [sql];
      var error := if idx <= |errors| then errors[idx - 1] else None;
      assert error == resp[idx - 1];
      if error.Some? {
        if error.value in NonFatalCodes {
          skipped := skipped + [idx];
          continue;
        }
        FirstFatalAt(resp, idx - 1);
        return Failed(idx, error.value), sent;
      }
    }
    r := Applied(skipped);
  }

  /** ensureDatabaseAndSchema, from the environment check to the statement loop:
      a missing DB_HOST, DB_USER or DB_NAME stops it before anything is sent; a
      missing schema file (None) stops it after CREATE DATABASE but before any
      schema statement is sent; otherwise the file's statements run. */
  method EnsureSchema(env: Env, schema: Option<string>, errors: seq<Option<string>>)
    returns (r: Outcome, sent: seq<string>)
    ensures !StrTruthy(env.host) || !StrTruthy(env.user) || !StrTruthy(env.name) ==> r == MissingEnv && sent == []
    ensures r == MissingSchemaFile <==> StrTruthy(env.host) && StrTruthy(env.user) && StrTruthy(env.name) && schema.None?
    ensures r == MissingEnv || r == MissingSchemaFile ==> sent == []
    ensures r.Applied? || r.Failed? ==> schema.Some? && sent <= SplitSql(schema.value)
    ensures StrTruthy(env.host) && StrTruthy(env.user) && StrTruthy(env.name) && schema.Some? ==>
            RanStatements(SplitSql(schema.value), errors, r, sent)
  {
    if !StrTruthy(env.host) || !StrTruthy(env.user) || !StrTruthy(env.name) {
      return MissingEnv, [];
    }
    if schema.None? {
      return MissingSchemaFile, [];
    }
    r, sent := RunStatements(SplitSql(schema.value), errors);
  }

  /** The first fatal answer is the fatal one with only non-fatal ones before it. */
  lemma FirstFatalAt(resp: seq<Option<string>>, k: nat)
    requires k < |resp| && Fatal(resp[k])
    requires forall i :: 0 <= i < k ==> !Fatal(resp[i])
    ensures FirstFatal(resp) == k
  {
  }
}
