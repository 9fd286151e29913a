/** The in-place tokenizer of lib/util_str.c, against a tokenizer on values. */
module StrExplode {
  import opened Common

  /** The text of the C string that begins at p. */
  function CStr(a: seq<Byte>, p: nat): seq<Byte>
    decreases |a| - p
  {
    if p >= |a| || a[p] == 0 then [] else [a[p]] + CStr(a, p + 1)
  }

  lemma {:induction false} CStrIs(a: seq<Byte>, p: nat, e: nat)
    requires p <= e < |a| && a[e] == 0 && forall k :: p <= k < e ==> a[k] != 0
    ensures CStr(a, p) == a[p..e]
    decreases e - p
  {
    if p < e {
      CStrIs(a, p + 1, e);
    }
  }

  // ---------------------------------------------------------------- the tokenizer on values

  /** A separator table: for each byte whether it separates.  NUL never does. */
  ghost predicate IsTable(t: seq<bool>) { |t| == 256 && !t[0] }

  predicate Quote(b: Byte) { b == 34 || b == 39 }

  function NonSep(s: seq<Byte>, t: seq<bool>, p: nat): (q: nat)
    requires |t| == 256 && p <= |s|
    ensures p <= q <= |s|
    decreases |s| - p
  {
    if p < |s| && t[s[p]] then NonSep(s, t, p + 1) else p
  }

  function Sep(s: seq<Byte>, t: seq<bool>, p: nat): (q: nat)
    requires |t| == 256 && p <= |s|
    ensures p <= q <= |s|
    decreases |s| - p
  {
    if p < |s| && !t[s[p]] then Sep(s, t, p + 1) else p
  }

  function Find(s: seq<Byte>, c: Byte, p: nat): (q: nat)
    requires p <= |s|
    ensures p <= q <= |s|
    decreases |s| - p
  {
    if p < |s| && s[p] != c then Find(s, c, p + 1) else p
  }

  /** s[p..] without the separators at its end. */
  function TrimmedEnd(s: seq<Byte>, t: seq<bool>, p: nat, e: nat): (r: nat)
    requires |t| == 256 && p <= e <= |s|
    ensures p <= r <= e
  {
    if e > p && t[s[e - 1]] then TrimmedEnd(s, t, p, e - 1) else e
  }

  /** At most n fields of s, from position p on.  A field is a quoted text or a run without
      separators; the n-th, when not quoted, takes all the rest up to separators at the end. */
  function Explode(s: seq<Byte>, t: seq<bool>, n: nat, p: nat): seq<seq<Byte>>
    requires |t| == 256 && p <= |s|
    decreases |s| - p, 1
  {
    var q := NonSep(s, t, p);
    if q == |s| then [] else Fields(s, t, n, q)
  }

  /** The fields from the one that begins at q on. */
  function Fields(s: seq<Byte>, t: seq<bool>, n: nat, q: nat): seq<seq<Byte>>
    requires |t| == 256 && q < |s|
    decreases |s| - q, 0
  {
    if Quote(s[q]) then
      var c := Find(s, s[q], q + 1);
      [s[q + 1..c]] + if c == |s| || n <= 1 then [] else Explode(s, t, n - 1, c + 1)
    else if n <= 1 then [s[q..TrimmedEnd(s, t, q, |s|)]]
    else
      var e := Sep(s, t, q);
      [s[q..e]] + if e == |s| then [] else Explode(s, t, n - 1, e + 1)
  }

  /** r is the field s[a..e], and if there are more then those from e + 1 on. */
  ghost predicate FieldIs(r: seq<seq<Byte>>, s: seq<Byte>, t: seq<bool>, n: nat, a: nat, e: nat, more: bool)
    requires |t| == 256 && 1 <= n
  {
    && a <= e <= |s| && (more ==> e < |s| && n > 1)
    && r == [s[a..e]] + if more then Explode(s, t, n - 1, e + 1) else []
  }

  /** That is what is found at p. */
  ghost predicate FieldAt(s: seq<Byte>, t: seq<bool>, n: nat, p: nat, a: nat, e: nat, more: bool)
    requires |t| == 256 && p <= |s| && 1 <= n
  {
    FieldIs(Explode(s, t, n, p), s, t, n, a, e, more)
  }

  lemma ExplodeCases(s: seq<Byte>, t: seq<bool>, n: nat, p: nat)
    requires |t| == 256 && p <= |s| && 1 <= n
    ensures var q := NonSep(s, t, p);
      if q == |s| then Explode(s, t, n, p) == []
      else if Quote(s[q]) then
        var c := Find(s, s[q], q + 1);
        FieldAt(s, t, n, p, q + 1, c, c < |s| && n > 1)
      else if n <= 1 then FieldAt(s, t, n, p, q, TrimmedEnd(s, t, q, |s|), false)
      else
        var e := Sep(s, t, q);
        FieldAt(s, t, n, p, q, e, e < |s|)
  {
    ExplodeSkips(s, t, n, p);
    if NonSep(s, t, p) < |s| {
      FieldsCases(s, t, n, NonSep(s, t, p));
    }
    hide Explode, Fields, FieldIs, NonSep, Sep, Find, TrimmedEnd, Quote;
  }

  lemma ExplodeSkips(s: seq<Byte>, t: seq<bool>, n: nat, p: nat)
    requires |t| == 256 && p <= |s|
    ensures var q := NonSep(s, t, p);
      Explode(s, t, n, p) == if q == |s| then [] else Fields(s, t, n, q)
  {
    hide NonSep, Fields;
  }

  lemma FieldsCases(s: seq<Byte>, t: seq<bool>, n: nat, q: nat)
    requires |t| == 256 && q < |s| && 1 <= n
    ensures if Quote(s[q]) then
              var c := Find(s, s[q], q + 1);
              FieldIs(Fields(s, t, n, q), s, t, n, q + 1, c, c < |s| && n > 1)
            else if n <= 1 then FieldIs(Fields(s, t, n, q), s, t, n, q, TrimmedEnd(s, t, q, |s|), false)
            else
              var e := Sep(s, t, q);
              FieldIs(Fields(s, t, n, q), s, t, n, q, e, e < |s|)
  {
    hide Explode, Sep, Find, TrimmedEnd;
  }

  // ---------------------------------------------------------------- where the fields lie

  /** A field: it begins at `from`, where a quote may stand, and its text is s[a..e]. */
  datatype Span = Span(from: nat, a: nat, e: nat)

  /** A field is the text up to the next quote of the kind that it begins with, or all the rest
      when there is none; or the bytes up to the next separator; or, for the last field there is
      room for, the rest of the line up to its last byte that does not separate. */
  ghost predicate IsField(s: seq<Byte>, t: seq<bool>, last: bool, f: Span)
    requires |t| == 256
  {
    && f.from < |s| && f.from <= f.a <= f.e <= |s| && !t[s[f.from]]
    && if s[f.from] == 34 || s[f.from] == 39 then
         f.a == f.from + 1 && s[f.from] !in s[f.a..f.e] && (f.e < |s| ==> s[f.e] == s[f.from])
       else
         && f.a == f.from < f.e
         && if last then !t[s[f.e - 1]] && forall k :: f.e <= k < |s| ==> t[s[k]]
            else (forall k :: f.a <= k < f.e ==> !t[s[k]]) && (f.e < |s| ==> t[s[f.e]])
  }

  /** Only separators lie between p and q. */
  ghost predicate Gap(s: seq<Byte>, t: seq<bool>, p: nat, q: nat)
    requires |t| == 256
  {
    forall k :: p <= k < q && k < |s| ==> t[s[k]]
  }

  /** The fields fs of s from p on: between one and the next there are only separators, and there are
      n, or only separators follow the last. */
  ghost predicate Reads(s: seq<Byte>, t: seq<bool>, n: nat, p: nat, fs: seq<Span>)
    requires |t| == 256
  {
    && |fs| <= n
    && (forall j :: 0 <= j < |fs| ==> FieldAfter(s, t, j + 1 == n, Resume(p, fs, j), fs[j]))
    && (|fs| < n ==> Gap(s, t, Resume(p, fs, |fs|), |s|))
  }

  ghost predicate FieldAfter(s: seq<Byte>, t: seq<bool>, last: bool, p: nat, f: Span)
    requires |t| == 256
  {
    IsField(s, t, last, f) && p <= f.from && Gap(s, t, p, f.from)
  }

  /** Where field j is looked for. */
  function Resume(p: nat, fs: seq<Span>, j: nat): nat
    requires j <= |fs|
  {
    if j == 0 then p else fs[j - 1].e + 1
  }

  function TextsOf(s: seq<Byte>, fs: seq<Span>): seq<seq<Byte>>
    requires forall j :: 0 <= j < |fs| ==> fs[j].a <= fs[j].e <= |s|
  {
    seq(|fs|, j requires 0 <= j < |fs| => s[fs[j].a..fs[j].e])
  }

  lemma {:induction false} NonSepPassed(s: seq<Byte>, t: seq<bool>, p: nat)
    requires |t| == 256 && p <= |s|
    ensures var q := NonSep(s, t, p); (forall k :: p <= k < q ==> t[s[k]]) && (q < |s| ==> !t[s[q]])
    decreases |s| - p
  {
    if p < |s| && t[s[p]] {
      NonSepPassed(s, t, p + 1);
    }
  }

  lemma {:induction false} SepPassed(s: seq<Byte>, t: seq<bool>, p: nat)
    requires |t| == 256 && p <= |s|
    ensures var q := Sep(s, t, p); (forall k :: p <= k < q ==> !t[s[k]]) && (q < |s| ==> t[s[q]])
    decreases |s| - p
  {
    if p < |s| && !t[s[p]] {
      SepPassed(s, t, p + 1);
    }
  }

  lemma {:induction false} FindPassed(s: seq<Byte>, c: Byte, p: nat)
    requires p <= |s|
    ensures var q := Find(s, c, p); c !in s[p..q] && (q < |s| ==> s[q] == c)
    decreases |s| - p
  {
    if p < |s| && s[p] != c {
      FindPassed(s, c, p + 1);
      assert s[p..Find(s, c, p)] == [s[p]] + s[p + 1..Find(s, c, p)];
    }
  }

  lemma {:induction false} TrimmedPassed(s: seq<Byte>, t: seq<bool>, p: nat, e: nat)
    requires |t| == 256 && p < e <= |s| && !t[s[p]]
    ensures var r := TrimmedEnd(s, t, p, e); p < r && !t[s[r - 1]] && forall k :: r <= k < e ==> t[s[k]]
    decreases e
  {
    if t[s[e - 1]] {
      TrimmedPassed(s, t, p, e - 1);
    }
  }

  /** The first field, as the tokenizer finds it. */
  lemma FirstField(s: seq<Byte>, t: seq<bool>, n: nat, p: nat) returns (f: Span, more: bool)
    requires |t| == 256 && p <= |s| && 1 <= n && NonSep(s, t, p) < |s|
    ensures FieldAfter(s, t, n == 1, p, f) && p <= f.a <= f.e <= |s|
    ensures FieldAt(s, t, n, p, f.a, f.e, more) && (more <==> f.e < |s| && n > 1)
  {
    hide Explode, NonSep, Sep, Find, TrimmedEnd, FieldAt;
    ExplodeCases(s, t, n, p);
    NonSepPassed(s, t, p);
    var q := NonSep(s, t, p);
    if Quote(s[q]) {
      FindPassed(s, s[q], q + 1);
      f := Span(q, q + 1, Find(s, s[q], q + 1));
    } else if n <= 1 {
      TrimmedPassed(s, t, q, |s|);
      f := Span(q, q, TrimmedEnd(s, t, q, |s|));
    } else {
      SepPassed(s, t, q);
      f := Span(q, q, Sep(s, t, q));
    }
    more := f.e < |s| && n > 1;
  }

  lemma ReadsFirst(s: seq<Byte>, t: seq<bool>, n: nat, p: nat, f: Span, fs: seq<Span>)
    requires |t| == 256 && 1 <= n && FieldAfter(s, t, n == 1, p, f)
    requires if n > 1 then Reads(s, t, n - 1, f.e + 1, fs) else fs == []
    ensures Reads(s, t, n, p, [f] + fs)
  {
    hide FieldAfter, Gap;
    var all := [f] + fs;
    forall j | 0 <= j < |all|
      ensures FieldAfter(s, t, j + 1 == n, Resume(p, all, j), all[j])
    {
      if j > 0 {
        assert all[j] == fs[j - 1] && Resume(p, all, j) == Resume(f.e + 1, fs, j - 1);
      }
    }
    assert n > 1 ==> Resume(p, all, |all|) == Resume(f.e + 1, fs, |fs|);
  }

  /** The tokenizer gives the texts of the fields that lie so. */
  lemma {:induction false} ExplodeReads(s: seq<Byte>, t: seq<bool>, n: nat, p: nat) returns (fs: seq<Span>)
    requires |t| == 256 && p <= |s| && 1 <= n
    ensures Reads(s, t, n, p, fs) && (forall j :: 0 <= j < |fs| ==> fs[j].a <= fs[j].e <= |s|)
    ensures Explode(s, t, n, p) == TextsOf(s, fs)
    decreases |s| - p
  {
    hide Explode, NonSep, Reads, FieldAfter, Gap, TextsOf;
    ExplodeCases(s, t, n, p);
    fs := [];
    if NonSep(s, t, p) == |s| {
      NonSepGap(s, t, p);
      ReadsNone(s, t, n, p);
    } else {
      var f, more := FirstField(s, t, n, p);
      if more {
        fs := ExplodeReads(s, t, n - 1, f.e + 1);
      } else if n > 1 {
        GapNone(s, t, f.e + 1);
        ReadsNone(s, t, n - 1, f.e + 1);
      }
      ReadsFirst(s, t, n, p, f, fs);
      TextsCons(s, f, fs);
      fs := [f] + fs;
    }
  }

  lemma ReadsLast(s: seq<Byte>, t: seq<bool>, n: nat, p: nat, fs: seq<Span>)
    requires |t| == 256 && 1 <= n == |fs| && Reads(s, t, n, p, fs)
    ensures IsField(s, t, true, fs[n - 1])
  {
  }

  lemma NonSepGap(s: seq<Byte>, t: seq<bool>, p: nat)
    requires |t| == 256 && p <= |s|
    ensures Gap(s, t, p, NonSep(s, t, p))
  {
    NonSepPassed(s, t, p);
  }

  lemma GapNone(s: seq<Byte>, t: seq<bool>, p: nat)
    requires |t| == 256 && p >= |s|
    ensures Gap(s, t, p, |s|)
  {
  }

  lemma ReadsNone(s: seq<Byte>, t: seq<bool>, n: nat, p: nat)
    requires |t| == 256 && Gap(s, t, p, |s|)
    ensures Reads(s, t, n, p, []) && TextsOf(s, []) == []
  {
  }

  lemma TextsCons(s: seq<Byte>, f: Span, fs: seq<Span>)
    requires f.a <= f.e <= |s| && forall j :: 0 <= j < |fs| ==> fs[j].a <= fs[j].e <= |s|
    ensures (forall j :: 0 <= j < |[f] + fs| ==> ([f] + fs)[j].a <= ([f] + fs)[j].e <= |s|)
    ensures TextsOf(s, [f] + fs) == [s[f.a..f.e]] + TextsOf(s, fs) && TextsOf(s, []) == []
  {
  }

  // ---------------------------------------------------------------- collecting

  /** The whole result is what was collected and, if there is more, what is found from p on. */
  ghost predicate Owed(all: seq<seq<Byte>>, texts: seq<seq<Byte>>, s: seq<Byte>, t: seq<bool>, n: nat, p: nat,
                       more: bool)
    requires |t| == 256 && (more ==> p <= |s|)
  {
    all == texts + if more then Explode(s, t, n, p) else []
  }

  lemma Collect(all: seq<seq<Byte>>, texts: seq<seq<Byte>>, s: seq<Byte>, t: seq<bool>, n: nat, p: nat,
                a: nat, e: nat, more: bool)
    requires |t| == 256 && p <= |s| && 1 <= n
    requires Owed(all, texts, s, t, n, p, true) && FieldAt(s, t, n, p, a, e, more)
    ensures a <= e <= |s| && (more ==> e < |s| && n > 1)
    ensures Owed(all, texts + [s[a..e]], s, t, n - 1, e + 1, more)
  {
    hide Explode;
  }

  lemma CollectNone(all: seq<seq<Byte>>, texts: seq<seq<Byte>>, s: seq<Byte>, t: seq<bool>, n: nat, p: nat)
    requires |t| == 256 && p <= |s|
    requires Owed(all, texts, s, t, n, p, true) && Explode(s, t, n, p) == []
    ensures Owed(all, texts, s, t, n, p, false)
  {
  }

  lemma {:induction false} ExplodeCount(s: seq<Byte>, t: seq<bool>, n: nat, p: nat)
    requires |t| == 256 && p <= |s| && 1 <= n
    ensures |Explode(s, t, n, p)| <= n
    decreases |s| - p
  {
    hide Explode, NonSep, Sep, Find, TrimmedEnd;
    ExplodeCases(s, t, n, p);
    var q := NonSep(s, t, p);
    if q < |s| && n > 1 {
      var e := if Quote(s[q]) then Find(s, s[q], q + 1) else Sep(s, t, q);
      if e < |s| {
        ExplodeCount(s, t, n - 1, e + 1);
      }
    }
  }

  // ---------------------------------------------------------------- joining and splitting

  /** A field written as it is, or between two quotes q. */
  datatype Piece = Plain(text: seq<Byte>) | Quoted(q: Byte, text: seq<Byte>)

  predicate Proper(x: Piece, t: seq<bool>)
    requires |t| == 256
  {
    match x
    case Plain(w) => w != [] && !Quote(w[0]) && forall k :: 0 <= k < |w| ==> !t[w[k]]
    case Quoted(q, w) => Quote(q) && !t[q] && q !in w
  }

  function Written(x: Piece): seq<Byte> {
    match x
    case Plain(w) => w
    case Quoted(q, w) => [q] + w + [q]
  }

  /** The pieces with one separator b between them. */
  function Join(xs: seq<Piece>, b: Byte): seq<Byte> {
    if xs == [] then []
    else if |xs| == 1 then Written(xs[0])
    else Written(xs[0]) + [b] + Join(xs[1..], b)
  }

  function Texts(xs: seq<Piece>): seq<seq<Byte>> {
    if xs == [] then [] else [xs[0].text] + Texts(xs[1..])
  }

  lemma {:induction false} SepIs(s: seq<Byte>, t: seq<bool>, p: nat, e: nat)
    requires |t| == 256 && p <= e <= |s|
    requires forall k :: p <= k < e ==> !t[s[k]]
    requires e < |s| ==> t[s[e]]
    ensures Sep(s, t, p) == e
    decreases e - p
  {
    if p < e {
      SepIs(s, t, p + 1, e);
    }
  }

  lemma {:induction false} FindIs(s: seq<Byte>, c: Byte, p: nat, e: nat)
    requires p <= e < |s| && s[e] == c && forall k :: p <= k < e ==> s[k] != c
    ensures Find(s, c, p) == e
    decreases e - p
  {
    if p < e {
      FindIs(s, c, p + 1, e);
    }
  }

  lemma SkipOne(s: seq<Byte>, t: seq<bool>, n: nat, p: nat)
    requires |t| == 256 && p < |s| && t[s[p]]
    ensures Explode(s, t, n, p) == Explode(s, t, n, p + 1)
  {
    NonSepPasses(s, t, p);
    hide NonSep, Fields;
  }

  lemma NonSepPasses(s: seq<Byte>, t: seq<bool>, p: nat)
    requires |t| == 256 && p < |s| && t[s[p]]
    ensures NonSep(s, t, p) == NonSep(s, t, p + 1)
  {
  }

  /** A piece at p is found, and what is left begins behind it; the separator that follows a
      quoted piece is skipped with the next one. */
  lemma PieceFound(s: seq<Byte>, t: seq<bool>, n: nat, p: nat, x: Piece)
    requires |t| == 256 && 1 <= n && Proper(x, t) && p + |Written(x)| <= |s|
    requires s[p..p + |Written(x)|] == Written(x)
    requires var e := p + |Written(x)|; e < |s| ==> t[s[e]] && n > 1
    ensures var e := p + |Written(x)|;
      Explode(s, t, n, p) == [x.text] + if e < |s| then Explode(s, t, n - 1, e + 1) else []
  {
    match x
    case Plain(_) => PlainFound(s, t, n, p, x);
    case Quoted(_, _) => QuotedFound(s, t, n, p, x);
  }

  lemma PlainFound(s: seq<Byte>, t: seq<bool>, n: nat, p: nat, x: Piece)
    requires x.Plain? && |t| == 256 && 1 <= n && Proper(x, t) && p + |Written(x)| <= |s|
    requires s[p..p + |Written(x)|] == Written(x)
    requires var e := p + |Written(x)|; e < |s| ==> t[s[e]] && n > 1
    ensures var e := p + |Written(x)|;
      Explode(s, t, n, p) == [x.text] + if e < |s| then Explode(s, t, n - 1, e + 1) else []
  {
    hide Explode, Sep, NonSep, Find, TrimmedEnd;
    var w, e := x.text, p + |x.text|;
    assert forall k :: p <= k < e ==> s[k] == w[k - p];
    ExplodeCases(s, t, n, p);
    Stops(s, t, p, e);
    SepIs(s, t, p, e);
  }

  lemma QuotedFound(s: seq<Byte>, t: seq<bool>, n: nat, p: nat, x: Piece)
    requires x.Quoted? && |t| == 256 && 1 <= n && Proper(x, t) && p + |Written(x)| <= |s|
    requires s[p..p + |Written(x)|] == Written(x)
    requires var e := p + |Written(x)|; e < |s| ==> t[s[e]] && n > 1
    ensures var e := p + |Written(x)|;
      Explode(s, t, n, p) == [x.text] + if e < |s| then Explode(s, t, n - 1, e + 1) else []
  {
    hide Explode, Sep, NonSep, Find, TrimmedEnd;
    var w, e := Written(x), p + |Written(x)|;
    assert forall k :: p <= k < e ==> s[k] == w[k - p];
    ExplodeCases(s, t, n, p);
    StopsAt(s, t, p);
    assert s[p + 1..e - 1] == x.text;
    FindIs(s, x.q, p + 1, e - 1);
    if e < |s| {
      SkipOne(s, t, n - 1, e);
    } else {
      ExplodeAtEnd(s, t, n - 1);
    }
  }

  lemma {:induction false} NonSepToEnd(s: seq<Byte>, t: seq<bool>, p: nat)
    requires |t| == 256 && p <= |s| && forall k :: p <= k < |s| ==> t[s[k]]
    ensures NonSep(s, t, p) == |s|
    decreases |s| - p
  {
    if p < |s| {
      NonSepToEnd(s, t, p + 1);
    }
  }

  lemma {:induction false} TrimmedIs(s: seq<Byte>, t: seq<bool>, p: nat, r: nat, e: nat)
    requires |t| == 256 && p < r <= e <= |s| && !t[s[r - 1]] && forall k :: r <= k < e ==> t[s[k]]
    ensures TrimmedEnd(s, t, p, e) == r
    decreases e
  {
    if r < e {
      TrimmedIs(s, t, p, r, e - 1);
    }
  }

  lemma {:induction false} JoinEnds(xs: seq<Piece>, b: Byte, t: seq<bool>)
    requires |t| == 256 && xs != [] && forall i :: 0 <= i < |xs| ==> Proper(xs[i], t)
    ensures var w, j := Written(xs[0]), Join(xs, b); w != [] && w <= j && !t[j[0]] && !t[j[|j| - 1]]
  {
    if |xs| > 1 {
      JoinEnds(xs[1..], b, t);
      assert Join(xs, b) == Written(xs[0]) + [b] + Join(xs[1..], b);
    }
  }

  lemma LastPlain(s: seq<Byte>, t: seq<bool>, p: nat, r: nat)
    requires |t| == 256 && p < r <= |s| && !t[s[p]] && !Quote(s[p]) && !t[s[r - 1]]
    requires forall k :: r <= k < |s| ==> t[s[k]]
    ensures Explode(s, t, 1, p) == [s[p..r]]
  {
    ExplodeCases(s, t, 1, p);
    StopsAt(s, t, p);
    TrimmedIs(s, t, p, r, |s|);
  }

  lemma LastQuoted(s: seq<Byte>, t: seq<bool>, p: nat, e: nat)
    requires |t| == 256 && p < e < |s| && Quote(s[p]) && !t[s[p]] && s[e] == s[p]
    requires forall k :: p < k < e ==> s[k] != s[p]
    ensures Explode(s, t, 1, p) == [s[p + 1..e]]
  {
    ExplodeCases(s, t, 1, p);
    StopsAt(s, t, p);
    FindIs(s, s[p], p + 1, e);
  }

  lemma ProperBegins(x: Piece, t: seq<bool>)
    requires |t| == 256 && Proper(x, t)
    ensures var w := Written(x); w != [] && (Quote(w[0]) <==> x.Quoted?)
    ensures x.Quoted? ==>
              var w := Written(x); var e := |w| - 1;
              0 < e && w[e] == w[0] && w[1..e] == x.text && forall k :: 0 < k < e ==> w[k] != w[0]
  {
  }

  /** With room for no more than one field, it is the rest of the line, or the quoted text at its
      beginning. */
  lemma LastPiece(s: seq<Byte>, t: seq<bool>, p: nat, xs: seq<Piece>, b: Byte, tail: seq<Byte>)
    requires |t| == 256 && xs != [] && (forall i :: 0 <= i < |xs| ==> Proper(xs[i], t))
    requires p <= |s| && s[p..] == Join(xs, b) + tail && forall k :: 0 <= k < |tail| ==> t[tail[k]]
    ensures Explode(s, t, 1, p) == [if xs[0].Quoted? then xs[0].text else Join(xs, b)]
  {
    hide Explode, Proper, Written, Join, Quote;
    var w, j := Written(xs[0]), Join(xs, b);
    JoinEnds(xs, b, t);
    ProperBegins(xs[0], t);
    var r, e := p + |j|, p + |w| - 1;
    Placed(s, p, j, w, tail);
    if xs[0].Quoted? {
      assert s[p + 1..e] == w[1..|w| - 1];
      LastQuoted(s, t, p, e);
    } else {
      LastPlain(s, t, p, r);
    }
  }

  lemma Placed(s: seq<Byte>, p: nat, j: seq<Byte>, w: seq<Byte>, tail: seq<Byte>)
    requires p <= |s| && s[p..] == j + tail && w <= j
    ensures p + |j| + |tail| == |s| && s[p..p + |j|] == j
    ensures forall k :: p <= k < p + |j| ==> s[k] == j[k - p]
    ensures forall k :: p <= k < p + |w| ==> s[k] == w[k - p]
    ensures forall k :: p + |j| <= k < |s| ==> s[k] == tail[k - p - |j|]
  {
    assert forall k :: p <= k < |s| ==> s[k] == s[p..][k - p];
  }

  lemma OnlySeparators(s: seq<Byte>, t: seq<bool>, n: nat, p: nat)
    requires |t| == 256 && p <= |s| && forall k :: p <= k < |s| ==> t[s[k]]
    ensures Explode(s, t, n, p) == []
  {
    NonSepToEnd(s, t, p);
  }

  lemma Regroup(pre: seq<Byte>, w: seq<Byte>, b: seq<Byte>, rest: seq<Byte>, tail: seq<Byte>)
    requires |b| == 1
    ensures var s := pre + (w + b + rest) + tail;
      s == (pre + w + b) + rest + tail && s[|pre| + |w|] == b[0]
  {
  }

  /** The texts of the first n - 1 pieces, and then the joined rest, or the text in quotes at its
      beginning. */
  function Fitted(xs: seq<Piece>, b: Byte, n: nat): seq<seq<Byte>>
    requires 1 <= n
  {
    if |xs| < n then Texts(xs)
    else Texts(xs[..n - 1]) + [if xs[n - 1].Quoted? then xs[n - 1].text else Join(xs[n - 1..], b)]
  }

  lemma FittedFirst(xs: seq<Piece>, b: Byte, n: nat)
    requires 1 <= n
    ensures xs == [] ==> Fitted(xs, b, n) == []
    ensures n == 1 && xs != [] ==> Fitted(xs, b, n) == [if xs[0].Quoted? then xs[0].text else Join(xs, b)]
    ensures 1 < n && xs != [] ==> Fitted(xs, b, n) == [xs[0].text] + Fitted(xs[1..], b, n - 1)
  {
    if n == 1 && xs != [] {
      assert xs[0..] == xs;
    } else if 1 < n <= |xs| {
      assert xs[..n - 1][1..] == xs[1..][..n - 2] && xs[n - 1..] == xs[1..][n - 2..];
    }
  }

  lemma {:induction false} SplitsFitted(pre: seq<Byte>, xs: seq<Piece>, b: Byte, tail: seq<Byte>, t: seq<bool>, n: nat)
    requires |t| == 256 && t[b] && 1 <= n
    requires forall i :: 0 <= i < |xs| ==> Proper(xs[i], t)
    requires forall k :: 0 <= k < |tail| ==> t[tail[k]]
    ensures Explode(pre + Join(xs, b) + tail, t, n, |pre|) == Fitted(xs, b, n)
    decreases |xs|
  {
    hide Explode, Written, Proper, Join, Fitted;
    var s, p := pre + Join(xs, b) + tail, |pre|;
    FittedFirst(xs, b, n);
    if xs == [] {
      JoinFirst(xs, b);
      OnlySeparators(s, t, n, p);
    } else if n == 1 {
      assert s[p..] == Join(xs, b) + tail;
      LastPiece(s, t, p, xs, b, tail);
    } else {
      var w, ys := Written(xs[0]), xs[1..];
      var e := p + |w|;
      JoinFirst(xs, b);
      if ys != [] {
        Regroup(pre, w, [b], Join(ys, b), tail);
        SplitsFitted(pre + w + [b], ys, b, tail, t, n - 1);
        assert Explode(s, t, n - 1, e + 1) == Fitted(ys, b, n - 1);
      } else {
        FittedFirst(ys, b, n - 1);
        if tail != [] {
          OnlySeparators(s, t, n - 1, e + 1);
        }
      }
      assert s[p..e] == w;
      PieceFound(s, t, n, p, xs[0]);
    }
  }

  lemma JoinFirst(xs: seq<Piece>, b: Byte)
    ensures Join(xs, b) == if xs == [] then []
                           else if xs[1..] == [] then Written(xs[0])
                           else Written(xs[0]) + [b] + Join(xs[1..], b)
  {
  }

  /** What the tokenizer makes of pieces that were joined, with separators at the end of the line:
      given room for one more it gives them all back; otherwise the last field is the joined rest
      without those separators, or the text in quotes at the rest's beginning. */
  lemma SplitsJoined(pre: seq<Byte>, xs: seq<Piece>, b: Byte, tail: seq<Byte>, t: seq<bool>, n: nat)
    requires |t| == 256 && t[b] && 1 <= n
    requires forall i :: 0 <= i < |xs| ==> Proper(xs[i], t)
    requires forall k :: 0 <= k < |tail| ==> t[tail[k]]
    ensures Explode(pre + Join(xs, b) + tail, t, n, |pre|)
         == if |xs| < n then Texts(xs)
            else Texts(xs[..n - 1]) + [if xs[n - 1].Quoted? then xs[n - 1].text else Join(xs[n - 1..], b)]
  {
    hide Explode, Proper, Join, Texts;
    SplitsFitted(pre, xs, b, tail, t, n);
  }

  /** The four blanks separate when no separators are given, and nothing else does. */
  lemma Blanks(b: Byte)
    ensures Separates(Default, b) <==> b as char in "\t\n\r "
  {
  }

  lemma CodesJoin(a: string, b: string)
    requires Latin(a) && Latin(b)
    ensures Latin(a + b) && Codes(a + b) == Codes(a) + Codes(b)
  {
  }

  lemma TwoPieces(w: seq<Byte>, b: Byte, v: seq<Byte>, tail: seq<Byte>, t: seq<bool>)
    requires |t| == 256 && t[b] && Proper(Plain(w), t) && Proper(Plain(v), t)
    requires forall k :: 0 <= k < |tail| ==> t[tail[k]]
    ensures Explode(w + [b] + v + tail, t, 2, 0) == [w, v]
  {
    var xs := [Plain(w), Plain(v)];
    assert xs[1..] == [Plain(v)] && xs[..1] == [Plain(w)] && xs[..1][1..] == [];
    assert Texts([]) == [] && Texts(xs[..1]) == [w] && Join(xs[1..], b) == v && Join(xs, b) == w + [b] + v;
    assert forall i :: 0 <= i < |xs| ==> Proper(xs[i], t);
    hide *;
    assert [] + Join(xs, b) + tail == w + [b] + v + tail;
    SplitsJoined([], xs, b, tail, t, 2);
  }

  /** "name value ", with a blank and a line end behind it, and room for two fields. */
  lemma NameAndValue()
    ensures Latin("name value \n") && Latin("name") && Latin("value")
    ensures Explode(Codes("name value \n"), Separators(Default), 2, 0) == [Codes("name"), Codes("value")]
  {
    assert "name" + " " + "value" + " \n" == "name value \n";
    CodesJoin("name", " ");
    CodesJoin("name" + " ", "value");
    CodesJoin("name" + " " + "value", " \n");
    hide Explode;
    assert Codes(" ") == [32];
    TwoPieces(Codes("name"), 32, Codes("value"), Codes(" \n"), Separators(Default));
  }

  predicate Latin(s: string) { forall i :: 0 <= i < |s| ==> s[i] < 256 as char }

  function Codes(s: string): (c: seq<Byte>)
    requires Latin(s)
    ensures |c| == |s| && forall i :: 0 <= i < |s| ==> c[i] == s[i] as int
  {
    seq(|s|, i requires 0 <= i < |s| => s[i] as Byte)
  }

  lemma StopsAt(s: seq<Byte>, t: seq<bool>, p: nat)
    requires |t| == 256 && p < |s| && !t[s[p]]
    ensures NonSep(s, t, p) == p
  {
  }

  lemma ExplodeAtEnd(s: seq<Byte>, t: seq<bool>, n: nat)
    requires |t| == 256
    ensures Explode(s, t, n, |s|) == []
  {
  }

  lemma Stops(s: seq<Byte>, t: seq<bool>, p: nat, e: nat)
    requires |t| == 256 && p < e <= |s| && !t[s[p]] && !t[s[e - 1]]
    ensures NonSep(s, t, p) == p && TrimmedEnd(s, t, p, e) == e
  {
  }

  // ---------------------------------------------------------------- build_ifs

  method BuildIfs(tifs: array<bool>, ifs: seq<Byte>)
    requires tifs.Length == 256 && 0 !in ifs
    modifies tifs
    ensures forall b: Byte :: tifs[b] <==> b in ifs
  {
    for k := 0 to 256
      invariant forall j :: 0 <= j < k ==> !tifs[j]
    {
      tifs[k] := false;
    }
    for k := 0 to |ifs|
      invariant forall b: Byte :: tifs[b] <==> b in ifs[..k]
    {
      tifs[ifs[k]] := true;
    }
  }

  /** The three kinds of first argument: a null pointer, a table, or separator characters. */
  datatype Ifs = Default | Table(t: seq<bool>) | Chars(cs: seq<Byte>)

  predicate ValidIfs(ifs: Ifs) {
    match ifs
    case Default => true
    case Table(t) => |t| == 256 && !t[0]
    case Chars(cs) => cs != [] && 0 !in cs
  }

  predicate Separates(ifs: Ifs, b: Byte)
    requires ValidIfs(ifs)
  {
    match ifs
    case Default => b == 9 || b == 10 || b == 13 || b == 32
    case Table(t) => t[b]
    case Chars(cs) => b in cs
  }

  function Separators(ifs: Ifs): (t: seq<bool>)
    requires ValidIfs(ifs)
    ensures IsTable(t) && forall b: Byte :: t[b] <==> Separates(ifs, b)
  {
    seq(256, b requires 0 <= b < 256 => Separates(ifs, b))
  }

  method TableOf(ifs: Ifs) returns (t: seq<bool>)
    requires ValidIfs(ifs)
    ensures t == Separators(ifs)
  {
    match ifs {
      case Default => t := seq(256, b => b == 9 || b == 10 || b == 13 || b == 32);
      case Table(t0) => t := t0;
      case Chars(cs) =>
        var tifs := new bool[256];
        BuildIfs(tifs, cs);
        t := tifs[..];
        assert forall b: Byte :: t[b] == tifs[b];
    }
  }

  // ---------------------------------------------------------------- str_explode

  /** The line still reads s from position p on, and ends after it. */
  ghost predicate Intact(line: array<Byte>, s: seq<Byte>, p: nat)
    reads line
  {
    && |s| < line.Length && line[|s|] == 0
    && (forall k :: 0 <= k < |s| ==> s[k] != 0)
    && (forall k :: p <= k < |s| ==> line[k] == s[k])
  }

  method SkipSeps(line: array<Byte>, t: seq<bool>, p: nat, ghost s: seq<Byte>) returns (q: nat)
    requires IsTable(t) && p <= |s| && Intact(line, s, p)
    ensures q == NonSep(s, t, p)
  {
    q := p;
    while t[line[q]]
      invariant p <= q <= |s| && NonSep(s, t, q) == NonSep(s, t, p)
      decreases |s| - q
    {
      q := q + 1;
    }
  }

  method SkipField(line: array<Byte>, t: seq<bool>, p: nat, ghost s: seq<Byte>) returns (q: nat)
    requires IsTable(t) && p <= |s| && Intact(line, s, p)
    ensures q == Sep(s, t, p)
  {
    q := p;
    while line[q] != 0 && !t[line[q]]
      invariant p <= q <= |s| && Sep(s, t, q) == Sep(s, t, p)
      decreases |s| - q
    {
      q := q + 1;
    }
  }

  /** strchr, with the end of the text for a null pointer. */
  method StrChr(line: array<Byte>, c: Byte, p: nat, ghost s: seq<Byte>) returns (q: nat)
    requires c != 0 && p <= |s| && Intact(line, s, p)
    ensures q == Find(s, c, p)
  {
    q := p;
    while line[q] != 0 && line[q] != c
      invariant p <= q <= |s| && Find(s, c, q) == Find(s, c, p)
      decreases |s| - q
    {
      q := q + 1;
    }
  }

  /** From the end of the text back to behind its last byte that does not separate. */
  method TrimBack(line: array<Byte>, t: seq<bool>, p: nat, ghost s: seq<Byte>) returns (r: nat)
    requires IsTable(t) && p < |s| && Intact(line, s, p) && !t[s[p]]
    ensures p < r == TrimmedEnd(s, t, p, |s|)
  {
    r := p;
    while line[r] != 0
      invariant p <= r <= |s|
      decreases |s| - r
    {
      r := r + 1;
    }
    while t[line[r - 1]]
      invariant p < r <= |s| && TrimmedEnd(s, t, p, r) == TrimmedEnd(s, t, p, |s|)
      decreases r
    {
      r := r - 1;
    }
  }

  /** The fields found so far end before p, and each reads as its text. */
  ghost predicate Cut(a: seq<Byte>, fields: seq<nat>, texts: seq<seq<Byte>>, p: nat) {
    && |fields| == |texts| && p <= |a|
    && (forall j :: 0 <= j < |fields| ==>
          && fields[j] + |texts[j]| < p
          && a[fields[j]..fields[j] + |texts[j]|] == texts[j]
          && a[fields[j] + |texts[j]|] == 0
          && 0 !in texts[j])
  }

  /** Writing at or behind p does not disturb the fields that end before p. */
  lemma CutKept(a: seq<Byte>, b: seq<Byte>, fields: seq<nat>, texts: seq<seq<Byte>>, p: nat)
    requires Cut(a, fields, texts, p) && |a| == |b| && a[..p] == b[..p]
    ensures Cut(b, fields, texts, p)
  {
    forall j | 0 <= j < |fields|
      ensures b[fields[j]..fields[j] + |texts[j]|] == texts[j] && b[fields[j] + |texts[j]|] == 0
    {
      assert a[fields[j]..fields[j] + |texts[j]|] == a[..p][fields[j]..fields[j] + |texts[j]|];
      assert a[fields[j] + |texts[j]|] == a[..p][fields[j] + |texts[j]|];
      assert b[fields[j] + |texts[j]|] == b[..p][fields[j] + |texts[j]|];
    }
  }

  lemma CutText(a: seq<Byte>, fields: seq<nat>, texts: seq<seq<Byte>>, p: nat, j: nat)
    requires Cut(a, fields, texts, p) && j < |fields|
    ensures CStr(a, fields[j]) == texts[j]
  {
    var t := texts[j];
    assert forall k :: fields[j] <= k < fields[j] + |t| ==> a[k] == t[k - fields[j]];
    CStrIs(a, fields[j], fields[j] + |t|);
  }

  /** Ends a field that begins at q by a NUL at position e. */
  method CutField(line: array<Byte>, fields: seq<nat>, q: nat, e: nat,
                  ghost s: seq<Byte>, ghost texts: seq<seq<Byte>>, ghost p: nat)
    returns (fields': seq<nat>, ghost texts': seq<seq<Byte>>)
    requires Intact(line, s, q) && p <= q <= e <= |s| && Cut(line[..], fields, texts, p)
    modifies line
    ensures Intact(line, s, e + 1) && fields' == fields + [q] && texts' == texts + [s[q..e]]
    ensures Cut(line[..], fields', texts', e + 1)
  {
    ghost var a := line[..];
    line[e] := 0;
    assert a[..p] == line[..][..p];
    CutKept(a, line[..], fields, texts, p);
    fields', texts' := fields + [q], texts + [s[q..e]];
    assert line[..][q..e] == s[q..e];
  }

  lemma IntactAt(line: array<Byte>, s: seq<Byte>, p: nat, q: nat)
    requires Intact(line, s, p) && p <= q <= |s|
    ensures |s| < line.Length && (line[q] == 0 <==> q == |s|) && (q < |s| ==> line[q] == s[q])
    ensures Intact(line, s, q)
  {
  }

  lemma NonSepStops(s: seq<Byte>, t: seq<bool>, p: nat)
    requires |t| == 256 && p <= |s|
    ensures NonSep(s, t, p) < |s| ==> !t[s[NonSep(s, t, p)]]
    decreases |s| - p
  {
  }

  /** One round of the loop: finds and cuts one field, and tells whether to go on. */
  method NextField(t: seq<bool>, line: array<Byte>, n: nat, p: nat, fields: seq<nat>,
                   ghost s: seq<Byte>, ghost texts: seq<seq<Byte>>, ghost all: seq<seq<Byte>>)
    returns (more: bool, p': nat, fields': seq<nat>, ghost texts': seq<seq<Byte>>)
    requires IsTable(t) && p <= |s| && |fields| < n && Intact(line, s, p) && Cut(line[..], fields, texts, p)
    requires Owed(all, texts, s, t, n - |fields|, p, true)
    modifies line
    ensures p' <= |s| + 1 && Intact(line, s, p') && Cut(line[..], fields', texts', p')
    ensures more ==> p < p' <= |s| && |fields'| < n
    ensures |fields'| <= n && Owed(all, texts', s, t, n - |fields'|, p', more)
  {
    hide NonSep, Sep, Find, TrimmedEnd, Cut, Intact, Explode, FieldAt, Owed;
    ExplodeCases(s, t, n - |fields|, p);
    var q := SkipSeps(line, t, p, s);
    IntactAt(line, s, p, q);
    NonSepStops(s, t, p);
    if line[q] == 0 {
      more, p', fields', texts' := false, p, fields, texts;
      CollectNone(all, texts, s, t, n - |fields|, p);
    } else if Quote(line[q]) {
      IntactAt(line, s, p, q + 1);
      var c := StrChr(line, line[q], q + 1, s);
      IntactAt(line, s, p, c);
      more := line[c] != 0 && |fields| + 1 < n;
      Collect(all, texts, s, t, n - |fields|, p, q + 1, c, more);
      fields', texts' := CutField(line, fields, q + 1, c, s, texts, p);
      p' := c + 1;
      assert n - |fields'| == n - |fields| - 1;
    } else if |fields| + 1 >= n {
      var r := TrimBack(line, t, q, s);
      Collect(all, texts, s, t, n - |fields|, p, q, r, false);
      fields', texts' := CutField(line, fields, q, r, s, texts, p);
      more, p' := false, r + 1;
    } else {
      var e := SkipField(line, t, q, s);
      IntactAt(line, s, p, e);
      more := line[e] != 0;
      Collect(all, texts, s, t, n - |fields|, p, q, e, more);
      fields', texts' := CutField(line, fields, q, e, s, texts, p);
      p' := e + 1;
      assert n - |fields'| == n - |fields| - 1;
    }
  }

  /** Where the fields of a line lie. */
  lemma Spans(ifs: Ifs, s: seq<Byte>, n: nat) returns (at: seq<Span>)
    requires ValidIfs(ifs) && 1 <= n
    ensures Reads(s, Separators(ifs), n, 0, at) && |Explode(s, Separators(ifs), n, 0)| == |at|
    ensures forall j :: 0 <= j < |at| ==>
              at[j].a <= at[j].e <= |s| && Explode(s, Separators(ifs), n, 0)[j] == s[at[j].a..at[j].e]
    ensures |at| == n ==>
              var from, e := at[n - 1].from, at[n - 1].e;
              && from < |s|
              && (s[from] != 34 && s[from] != 39 ==>
                    && from == at[n - 1].a < e && !Separates(ifs, s[e - 1])
                    && forall k :: e <= k < |s| ==> Separates(ifs, s[k]))
  {
    hide Explode, Reads, Separates;
    var t := Separators(ifs);
    at := ExplodeReads(s, t, n, 0);
    if |at| == n {
      ReadsLast(s, t, n, 0, at);
    }
  }

  /** str_explode.  The fields found read, in the altered line, as the tokenizer on values gives
      them for the line as it was: the texts of the fields that lie there at `at`. */
  method StrExplode(ifs: Ifs, line: array<Byte>, n: nat, ghost s: seq<Byte>)
    returns (fields: seq<nat>, ghost at: seq<Span>)
    requires ValidIfs(ifs) && 1 <= n && Intact(line, s, 0)
    modifies line
    ensures |fields| == |Explode(s, Separators(ifs), n, 0)| <= n
    ensures forall j :: 0 <= j < |fields| ==> CStr(line[..], fields[j]) == Explode(s, Separators(ifs), n, 0)[j]
    ensures Reads(s, Separators(ifs), n, 0, at) && |fields| == |at|
    ensures forall j :: 0 <= j < |at| ==>
              at[j].a <= at[j].e <= |s| && CStr(line[..], fields[j]) == s[at[j].a..at[j].e]
    ensures |at| == n ==>
              var from, e := at[n - 1].from, at[n - 1].e;
              && from < |s|
              && (s[from] != 34 && s[from] != 39 ==>
                    && from == at[n - 1].a < e && !Separates(ifs, s[e - 1])
                    && forall k :: e <= k < |s| ==> Separates(ifs, s[k]))
  {
    hide *;
    var t := TableOf(ifs);
    fields := CutAll(t, line, n, s);
    at := Spans(ifs, s, n);
  }

  /** The loop of str_explode. */
  method CutAll(t: seq<bool>, line: array<Byte>, n: nat, ghost s: seq<Byte>) returns (fields: seq<nat>)
    requires IsTable(t) && 1 <= n && Intact(line, s, 0)
    modifies line
    ensures |fields| == |Explode(s, t, n, 0)| <= n
    ensures forall j :: 0 <= j < |fields| ==> CStr(line[..], fields[j]) == Explode(s, t, n, 0)[j]
  {
    hide Explode, Intact;
    ExplodeCount(s, t, n, 0);
    var p: nat, more := 0, true;
    fields := [];
    ghost var texts: seq<seq<Byte>> := [];
    while more
      invariant more ==> p <= |s| && |fields| < n
      invariant Intact(line, s, p) && Cut(line[..], fields, texts, p)
      invariant |fields| <= n && Owed(Explode(s, t, n, 0), texts, s, t, n - |fields|, p, more)
      decreases more, |s| + 1 - p
    {
      more, p, fields, texts := NextField(t, line, n, p, fields, s, texts, Explode(s, t, n, 0));
    }
    forall j | 0 <= j < |fields|
      ensures CStr(line[..], fields[j]) == texts[j]
    {
      CutText(line[..], fields, texts, p, j);
    }
  }
}
