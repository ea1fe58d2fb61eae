/** Title markup: `*italic*` and `**bold**` removed from the text, and the spans they delimited. The text is
    a sequence of bytes; a character longer than a byte is its bytes, none of which is an asterisk. */
module Markup {
  import opened Common

  datatype Span = Span(start: nat, end: nat, bold: bool)

  function Marker(bold: bool): (m: string)
    ensures |m| > 0
  {
    if bold then "**" else "*"
  }

  predicate At(s: string, m: string) {
    |m| <= |s| && s[..|m|] == m
  }

  /** Where `m` first occurs in `s`. */
  function Find(s: string, m: string): (r: Option<nat>)
    ensures r.Some? ==> r.value + |m| <= |s|
  {
    if At(s, m) then Some(0)
    else if s == [] then None
    else
      match Find(s[1..], m)
      case None => None
      case Some(k) => Some(k + 1)
  }

  lemma FindHere(s: string, m: string)
    ensures Find(s, m) == Some(0) <==> At(s, m)
  {
    hide At;
  }

  lemma FindSkips(s: string, m: string)
    requires !At(s, m)
    ensures Find(s, m) == if s == [] then None else match Find(s[1..], m) case None => None case Some(k) => Some(k + 1)
  {
    hide At;
  }

  lemma AtAsterisk(s: string)
    ensures At(s, "*") <==> s != [] && s[0] == '*'
  {
    if s != [] {
      assert s[..1] == [s[0]];
    }
  }

  /** What is found is there. */
  lemma {:induction false} FindFinds(s: string, m: string)
    requires Find(s, m).Some?
    ensures At(s[Find(s, m).value..], m)
  {
    var k := Find(s, m).value;
    if At(s, m) {
      FindHere(s, m);
      assert s[0..] == s;
    } else {
      FindSkips(s, m);
      FindFinds(s[1..], m);
      assert s[1..][k - 1..] == s[k..];
    }
  }

  /** What one step of the reading makes of the text: a character, a marker left as written, or a span. */
  datatype Piece = Letter(ch: char) | Stray(bold: bool) | Marked(text: string, bold: bool) {
    /** The piece as it was written. */
    function Source(): string {
      match this
      case Letter(ch) => [ch]
      case Stray(bold) => Marker(bold)
      case Marked(text, bold) => Marker(bold) + text + Marker(bold)
    }

    /** The piece as it is drawn. */
    function Drawn(): string {
      match this
      case Letter(ch) => [ch]
      case Stray(bold) => Marker(bold)
      case Marked(text, bold) => text
    }
  }

  predicate OpensBold(rest: string) {
    |rest| >= 2 && rest[0] == '*' && rest[1] == '*'
  }

  function Next(rest: string): (p: Piece)
    requires rest != []
    ensures 0 < |p.Source()| <= |rest|
  {
    if rest[0] != '*' then Letter(rest[0])
    else
      var bold := OpensBold(rest);
      var m := Marker(bold);
      var after := rest[|m|..];
      match Find(after, m)
      case Some(close) => if close > 0 then Marked(after[..close], bold) else Stray(bold)
      case None => Stray(bold)
  }

  /** What is read is what stands first. */
  lemma NextIsFirst(rest: string)
    requires rest != []
    ensures rest == Next(rest).Source() + rest[|Next(rest).Source()|..]
  {
    if rest[0] == '*' {
      var m := Marker(OpensBold(rest));
      var after := rest[|m|..];
      assert rest == m + after;
      if Next(rest).Marked? {
        var close := Find(after, m).value;
        FindFinds(after, m);
        MarkedFirst(after, m, close);
      }
    }
  }

  lemma MarkedFirst(after: string, m: string, close: nat)
    requires close + |m| <= |after| && At(after[close..], m)
    ensures m + after == m + after[..close] + m + after[close + |m|..]
    ensures (m + after)[|m + after[..close] + m|..] == after[close + |m|..]
  {
    assert after[close..][..|m|] == after[close..close + |m|];
  }

  function Parse(rest: string): seq<Piece> {
    if rest == [] then [] else [Next(rest)] + Parse(rest[|Next(rest).Source()|..])
  }

  function Shown(ps: seq<Piece>): string {
    if ps == [] then "" else Shown(ps[..|ps| - 1]) + ps[|ps| - 1].Drawn()
  }

  function Spans(ps: seq<Piece>): seq<Span> {
    if ps == [] then []
    else
      var init, p := ps[..|ps| - 1], ps[|ps| - 1];
      Spans(init) + if p.Marked? then [Span(|Shown(init)|, |Shown(init)| + |p.text|, p.bold)] else []
  }

  function Written(ps: seq<Piece>): string {
    if ps == [] then "" else Written(ps[..|ps| - 1]) + ps[|ps| - 1].Source()
  }

  lemma OneShown(ps: seq<Piece>, p: Piece)
    ensures Shown(ps + [p]) == Shown(ps) + p.Drawn()
    ensures Written(ps + [p]) == Written(ps) + p.Source()
  {
    hide Piece.Source, Piece.Drawn;
    var longer := ps + [p];
    assert longer[..|longer| - 1] == ps && longer[|longer| - 1] == p;
  }

  lemma OneSpan(ps: seq<Piece>, p: Piece)
    ensures Spans(ps + [p]) == Spans(ps) + if p.Marked? then [Span(|Shown(ps)|, |Shown(ps)| + |p.text|, p.bold)] else []
  {
    hide Shown, Piece.Source, Piece.Drawn;
    var longer := ps + [p];
    assert longer[..|longer| - 1] == ps && longer[|longer| - 1] == p;
  }

  lemma OnePiece(ps: seq<Piece>, p: Piece)
    ensures Shown(ps + [p]) == Shown(ps) + p.Drawn() && Written(ps + [p]) == Written(ps) + p.Source()
    ensures Spans(ps + [p]) == Spans(ps) + if p.Marked? then [Span(|Shown(ps)|, |Shown(ps)| + |p.text|, p.bold)] else []
  {
    hide Shown, Written, Spans, Piece.Source, Piece.Drawn;
    OneShown(ps, p);
    OneSpan(ps, p);
  }

  lemma ParseStep(rest: string)
    requires rest != []
    ensures Parse(rest) == [Next(rest)] + Parse(rest[|Next(rest).Source()|..])
  {
  }

  method ParseMarkup(content: string) returns (out: string, spans: seq<Span>)
    ensures out == Shown(Parse(content)) && spans == Spans(Parse(content))
  {
    hide Next, Shown, Spans, Written, Parse, Piece.Source, Piece.Drawn;
    out, spans := "", [];
    var rest := content;
    ghost var done: seq<Piece> := [];
    NothingRead();
    assert done + Parse(rest) == Parse(rest);
    while rest != []
      invariant out == Shown(done) && spans == Spans(done)
      invariant done + Parse(rest) == Parse(content)
      decreases |rest|
    {
      ghost var p := Next(rest);
      ghost var was := rest;
      OnePiece(done, p);
      out, spans, rest := ReadOne(rest, out, spans);
      ParseStep(was);
      Regrouped(done, p, Parse(rest));
      done := done + [p];
    }
    assert done + Parse(rest) == done;
  }

  lemma NothingRead()
    ensures Shown([]) == "" && Spans([]) == [] && Parse("") == []
  {
  }

  /** One turn of the reading. */
  method ReadOne(rest0: string, out0: string, spans0: seq<Span>) returns (out: string, spans: seq<Span>, rest: string)
    requires rest0 != []
    ensures var p := Next(rest0);
      && out == out0 + p.Drawn() && rest == rest0[|p.Source()|..]
      && spans == spans0 + if p.Marked? then [Span(|out0|, |out0| + |p.text|, p.bold)] else []
  {
    out, spans, rest := out0, spans0, rest0;
    var bold := OpensBold(rest);
    if !bold && rest[0] != '*' {
      return out + [rest[0]], spans, rest[1..];
    }
    var marker := Marker(bold);
    var after := rest[|marker|..];
    match Find(after, marker) {
      case Some(close) =>
        if close > 0 {
          var start := |out|;
          out := out + after[..close];
          spans := spans + [Span(start, |out|, bold)];
          rest := after[close + |marker|..];
        } else {
          out, rest := out + marker, after;
        }
      case None =>
        out, rest := out + marker, after;
    }
  }

  // ---- inverse ---------------------------------------------------------------

  /** Spans lie one after another inside the text, none empty. */
  predicate Disjoint(spans: seq<Span>, length: nat) {
    && (forall i | 0 <= i < |spans| :: spans[i].start < spans[i].end <= length)
    && (forall i, j | 0 <= i < j < |spans| :: spans[i].end <= spans[j].start)
  }

  /** The text with the markers put back around its spans. */
  function Restored(out: string, spans: seq<Span>): string
    requires Disjoint(spans, |out|)
    decreases |spans|
  {
    if spans == [] then out
    else
      var init, s := spans[..|spans| - 1], spans[|spans| - 1];
      Restored(out[..s.start], init) + Marker(s.bold) + out[s.start..s.end] + Marker(s.bold) + out[s.end..]
  }

  lemma {:induction false} PartsRead(rest: string)
    ensures Written(Parse(rest)) == rest
    decreases |rest|
  {
    if rest != [] {
      var p := Next(rest);
      var later := rest[|p.Source()|..];
      PartsRead(later);
      WrittenOnto(p, Parse(later));
      NextIsFirst(rest);
    }
  }

  lemma {:induction false} WrittenOnto(p: Piece, ps: seq<Piece>)
    ensures Written([p] + ps) == p.Source() + Written(ps)
  {
    assert Written([]) == "";
    hide Written, Shown, Spans, Piece.Source, Piece.Drawn;
    if ps == [] {
      OnePiece([], p);
      assert [p] + ps == [] + [p];
      assert "" + p.Source() == p.Source() + "";
    } else {
      var init, last := ps[..|ps| - 1], ps[|ps| - 1];
      WrittenOnto(p, init);
      FirstAndLast(p, ps);
      OnePiece([p] + init, last);
      OnePiece(init, last);
      Associates(p.Source(), Written(init), last.Source());
    }
  }

  lemma FirstAndLast(p: Piece, ps: seq<Piece>)
    requires ps != []
    ensures ps == ps[..|ps| - 1] + [ps[|ps| - 1]] && [p] + ps == [p] + ps[..|ps| - 1] + [ps[|ps| - 1]]
  {
  }

  predicate NoEmptySpan(ps: seq<Piece>) {
    forall k | 0 <= k < |ps| :: ps[k].Marked? ==> ps[k].text != []
  }

  lemma RestoredOn(out: string, more: string, spans: seq<Span>)
    requires Disjoint(spans, |out|)
    ensures Restored(out + more, spans) == Restored(out, spans) + more
  {
    if spans != [] {
      var s := spans[|spans| - 1];
      assert (out + more)[..s.start] == out[..s.start];
      assert (out + more)[s.start..s.end] == out[s.start..s.end];
      assert (out + more)[s.end..] == out[s.end..] + more;
    }
  }

  lemma RestoredSpan(out: string, text: string, spans: seq<Span>, bold: bool)
    requires Disjoint(spans, |out|) && text != []
    ensures var longer := spans + [Span(|out|, |out| + |text|, bold)];
      Disjoint(longer, |out + text|)
      && Restored(out + text, longer) == Restored(out, spans) + (Marker(bold) + text + Marker(bold))
  {
    var s := Span(|out|, |out| + |text|, bold);
    var longer, all := spans + [s], out + text;
    assert Disjoint(longer, |all|);
    assert longer[..|longer| - 1] == spans && longer[|longer| - 1] == s;
    assert all[..s.start] == out && all[s.start..s.end] == text && all[s.end..] == [];
    assert Restored(all, longer) == Restored(out, spans) + Marker(bold) + text + Marker(bold) + [];
    hide Restored, Disjoint;
    Regroup(Restored(out, spans), Marker(bold), text);
  }

  lemma DisjointOn(spans: seq<Span>, length: nat, longer: nat)
    requires Disjoint(spans, length) && length <= longer
    ensures Disjoint(spans, longer)
  {
  }

  ghost predicate RestoresTo(ps: seq<Piece>) {
    Disjoint(Spans(ps), |Shown(ps)|) && Restored(Shown(ps), Spans(ps)) == Written(ps)
  }

  lemma RestoresOn(ps: seq<Piece>, p: Piece)
    requires RestoresTo(ps) && (p.Marked? ==> p.text != [])
    ensures RestoresTo(ps + [p])
  {
    hide Shown, Spans, Written, Restored, Disjoint, Piece.Source, Piece.Drawn;
    OnePiece(ps, p);
    PlainDrawnAsWritten(p);
    if p.Marked? {
      RestoredSpan(Shown(ps), p.text, Spans(ps), p.bold);
    } else {
      assert Spans(ps) + [] == Spans(ps);
      RestoredOn(Shown(ps), p.Drawn(), Spans(ps));
      DisjointOn(Spans(ps), |Shown(ps)|, |Shown(ps) + p.Drawn()|);
    }
  }

  lemma NothingToRestore()
    ensures RestoresTo([])
  {
  }

  lemma NonEmptyUpTo(ps: seq<Piece>)
    requires NoEmptySpan(ps) && ps != []
    ensures NoEmptySpan(ps[..|ps| - 1]) && (ps[|ps| - 1].Marked? ==> ps[|ps| - 1].text != [])
  {
  }

  lemma {:induction false} RestoredIsWritten(ps: seq<Piece>)
    requires NoEmptySpan(ps)
    ensures RestoresTo(ps)
  {
    hide RestoresTo, NoEmptySpan;
    if ps == [] {
      NothingToRestore();
    } else {
      var init, p := ps[..|ps| - 1], ps[|ps| - 1];
      NonEmptyUpTo(ps);
      RestoredIsWritten(init);
      RestoresOn(init, p);
      assert ps == init + [p];
    }
  }

  lemma PlainDrawnAsWritten(p: Piece)
    ensures if p.Marked? then p.Source() == Marker(p.bold) + p.text + Marker(p.bold) && p.Drawn() == p.text
            else p.Source() == p.Drawn()
  {
  }

  lemma Regroup(a: string, m: string, text: string)
    ensures a + m + text + m + [] == a + (m + text + m)
  {
  }

  lemma {:induction false} ParseHasNoEmptySpan(rest: string)
    ensures NoEmptySpan(Parse(rest))
    decreases |rest|
  {
    if rest != [] {
      ParseHasNoEmptySpan(rest[|Next(rest).Source()|..]);
    }
  }

  /** Putting `*` and `**` back around the returned spans gives the content back exactly. */
  lemma MarkupRestores(content: string)
    ensures var ps := Parse(content);
      Disjoint(Spans(ps), |Shown(ps)|) && Restored(Shown(ps), Spans(ps)) == content
  {
    ParseHasNoEmptySpan(content);
    PartsRead(content);
    RestoredIsWritten(Parse(content));
  }

  function Removed(spans: seq<Span>): nat {
    if spans == [] then 0 else Removed(spans[..|spans| - 1]) + 2 * |Marker(spans[|spans| - 1].bold)|
  }

  lemma {:induction false} RestoredLength(out: string, spans: seq<Span>)
    requires Disjoint(spans, |out|)
    ensures |Restored(out, spans)| == |out| + Removed(spans)
    decreases |spans|
  {
    if spans != [] {
      RestoredLength(out[..spans[|spans| - 1].start], spans[..|spans| - 1]);
    }
  }

  /** The text drawn is the content less two markers for every span. */
  lemma OnlyMarkersRemoved(content: string)
    ensures var ps := Parse(content); |content| == |Shown(ps)| + Removed(Spans(ps))
  {
    MarkupRestores(content);
    RestoredLength(Shown(Parse(content)), Spans(Parse(content)));
  }

  // ---- which markers ---------------------------------------------------------

  /** A piece reads what follows it rightly: a span closes at its first partner; a single marker is left as written
      when no asterisk follows, and a bold one when its first partner is missing or follows at once, as in
      `****a**`, even if a later one could have closed it. */
  predicate ReadsRightly(p: Piece, later: string) {
    match p
    case Letter(ch) => ch != '*'
    case Marked(text, bold) => text != [] && Find(text + Marker(bold), Marker(bold)) == Some(|text|)
    case Stray(bold) => if bold then Find(later, "**") in {None, Some(0)} else '*' !in later
  }

  predicate Rightly(ps: seq<Piece>)
    decreases |ps|
  {
    ps == [] || (ReadsRightly(ps[0], Written(ps[1..])) && Rightly(ps[1..]))
  }

  lemma AtWithin(a: string, b: string, m: string)
    requires |m| <= |a|
    ensures At(a + b, m) == At(a, m)
  {
    assert (a + b)[..|m|] == a[..|m|];
  }

  lemma {:induction false} FindWithin(a: string, b: string, m: string)
    requires m != [] && Find(a, m).Some?
    ensures Find(a + b, m) == Find(a, m)
  {
    AtWithin(a, b, m);
    if At(a, m) {
      FindHere(a, m);
      FindHere(a + b, m);
    } else {
      assert (a + b)[1..] == a[1..] + b;
      FindSkips(a, m);
      FindSkips(a + b, m);
      FindWithin(a[1..], b, m);
    }
  }

  /** Text beyond the first occurrence does not matter to where it is. */
  lemma {:induction false} FindCut(s: string, m: string)
    requires m != [] && Find(s, m).Some?
    ensures var k := Find(s, m).value; Find(s[..k] + m, m) == Some(k)
  {
    var k := Find(s, m).value;
    var t := s[..k] + m;
    FindFinds(s, m);
    CutAgrees(s, m, k);
    if At(s, m) {
      FindHere(s, m);
      FindHere(t, m);
    } else {
      FindSkips(s, m);
      FindCut(s[1..], m);
      FindSkips(t, m);
    }
  }

  lemma CutAgrees(s: string, m: string, k: nat)
    requires m != [] && k + |m| <= |s| && At(s[k..], m)
    ensures At(s[..k] + m, m) == At(s, m)
    ensures k > 0 ==> (s[..k] + m)[1..] == s[1..][..k - 1] + m
  {
    var t := s[..k] + m;
    assert s == t + s[k + |m|..] by {
      assert s[k..][..|m|] == s[k..k + |m|];
    }
    AtWithin(t, s[k + |m|..], m);
  }

  lemma {:induction false} NoAsterisk(s: string)
    ensures Find(s, "*") == None <==> '*' !in s
  {
    AtAsterisk(s);
    if s != [] {
      NoAsterisk(s[1..]);
      assert s == [s[0]] + s[1..];
    }
  }

  lemma NotFirst(s: string)
    requires s == [] || s[0] != '*'
    ensures Find(s, "*") != Some(0)
  {
    AtAsterisk(s);
    FindHere(s, "*");
  }

  lemma NextReadsRightly(rest: string)
    requires rest != []
    ensures ReadsRightly(Next(rest), rest[|Next(rest).Source()|..])
  {
    var p := Next(rest);
    if rest[0] == '*' {
      var bold := OpensBold(rest);
      var m := Marker(bold);
      var after := rest[|m|..];
      if Find(after, m).Some? {
        FindCut(after, m);
      }
      if p == Stray(false) {
        assert after != [] ==> after[0] == rest[1];
        NotFirst(after);
        NoAsterisk(after);
      }
    }
  }

  lemma {:induction false} ParseReadsRightly(rest: string)
    ensures Rightly(Parse(rest))
    decreases |rest|
  {
    if rest != [] {
      var p := Next(rest);
      var later := rest[|p.Source()|..];
      ParseReadsRightly(later);
      PartsRead(later);
      NextReadsRightly(rest);
      assert ([p] + Parse(later))[1..] == Parse(later);
    }
  }

  lemma NextMarked(rest: string, text: string, bold: bool)
    requires rest != [] && rest[0] == '*' && OpensBold(rest) == bold && |rest| >= |Marker(bold)| + |text|
    requires text != []
    requires var after := rest[|Marker(bold)|..]; Find(after, Marker(bold)) == Some(|text|) && after[..|text|] == text
    ensures Next(rest) == Marked(text, bold)
  {
  }

  lemma MarkedIsNext(text: string, bold: bool, later: string)
    requires ReadsRightly(Marked(text, bold), later)
    ensures Next(Marked(text, bold).Source() + later) == Marked(text, bold)
  {
    hide Next, Find;
    var m := Marker(bold);
    var rest, after := Marked(text, bold).Source() + later, text + m + later;
    FindWithin(text + m, later, m);
    if !bold {
      FirstIsLetter(text);
    }
    Layered(m, text, later);
    assert rest[0] == '*' && OpensBold(rest) == bold;
    hide OpensBold;
    NextMarked(rest, text, bold);
  }

  lemma Layered(m: string, text: string, later: string)
    ensures (m + text + m + later)[|m|..] == text + m + later && (text + m + later)[..|text|] == text
    ensures text != [] ==> (m + text + m + later)[|m|] == text[0]
  {
  }

  lemma FirstIsLetter(text: string)
    requires text != [] && Find(text + "*", "*") == Some(|text|)
    ensures text[0] != '*'
  {
    FindHere(text + "*", "*");
    AtAsterisk(text + "*");
  }

  lemma StrayIsNext(bold: bool, later: string)
    requires ReadsRightly(Stray(bold), later)
    ensures Next(Marker(bold) + later) == Stray(bold)
  {
    var m := Marker(bold);
    var rest := m + later;
    if !bold {
      NoAsterisk(later);
      assert later != [] ==> later[0] in later && rest[1] == later[0];
    }
    assert OpensBold(rest) == bold;
    assert rest[|m|..] == later;
  }

  /** Whatever reads what follows it rightly is what the reading takes next. */
  lemma RightIsNext(p: Piece, later: string)
    requires ReadsRightly(p, later)
    ensures Next(p.Source() + later) == p
  {
    match p {
      case Letter(ch) =>
      case Marked(text, bold) => MarkedIsNext(text, bold, later);
      case Stray(bold) => StrayIsNext(bold, later);
    }
  }

  /** The reading is the only right one: any pieces that spell the content and each read rightly are those. */
  lemma {:induction false} OnlyReading(ps: seq<Piece>)
    requires Rightly(ps)
    ensures Parse(Written(ps)) == ps
    decreases |ps|
  {
    if ps != [] {
      var p, later := ps[0], ps[1..];
      OnlyReading(later);
      assert ps == [p] + later;
      hide Written, Parse, Next, Piece.Source, ReadsRightly;
      WrittenOnto(p, later);
      RightIsNext(p, Written(later));
      DropPrefix(p.Source(), Written(later));
      SourceNotEmpty(p);
      ParseStep(Written(ps));
    } else {
      NothingRead();
    }
  }

  lemma DropPrefix(a: string, b: string)
    ensures (a + b)[|a|..] == b
  {
  }

  lemma SourceNotEmpty(p: Piece)
    ensures p.Source() != []
  {
  }

  lemma AtDouble(s: string)
    ensures At(s, "**") <==> OpensBold(s)
  {
    if |s| >= 2 {
      assert s[..2] == [s[0], s[1]];
    }
  }

  /** The bold letter of `**a**`, and the marker before it whose first partner follows at once. */
  lemma AdjacentReadsRightly()
    ensures ReadsRightly(Marked("a", true), "") && ReadsRightly(Stray(true), "**a**")
  {
    AtDouble("**a**");
    FindHere("**a**", "**");
    AtDouble("a**");
    FindSkips("a**", "**");
    assert "a**"[1..] == "**";
    AtDouble("**");
    FindHere("**", "**");
    assert "a" + Marker(true) == "a**";
  }

  /** The first marker's first partner follows at once, so it stays, although the last one could have closed it. */
  lemma AdjacentPartnerStays()
    ensures Parse("****a**") == [Stray(true), Marked("a", true)]
  {
    hide Written, Parse, Find, ReadsRightly;
    var bold := [Marked("a", true)];
    var ps := [Stray(true)] + bold;
    AdjacentReadsRightly();
    NothingWritten();
    WrittenOnto(bold[0], []);
    WrittenOnto(ps[0], bold);
    assert bold == [bold[0]] + [] && ps[1..] == bold && bold[1..] == [];
    assert bold[0].Source() == "**a**";
    assert Written(bold) == "**a**";
    assert Written(ps) == "****a**";
    assert Rightly(bold);
    OnlyReading(ps);
  }

  lemma NothingWritten()
    ensures Written([]) == ""
  {
  }
}
