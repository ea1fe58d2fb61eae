/** The error card's text: what survives sanitizing, and how it is wrapped into lines that fit the frame. */
module WrapText {
  import opened Common

  const UNKNOWN := "unknown"
  const ELLIPSIS := "..."
  const USABLE_PX := 1280 - 60 * 2
  const REASON_FONTSIZE := 24
  const REASON_MAX_LINES := 3

  predicate Keeps(ch: char) {
    'a' <= ch <= 'z' || 'A' <= ch <= 'Z' || '0' <= ch <= '9' || ch in " .-_()"
  }

  function MaskedChar(ch: char): char {
    if Keeps(ch) then ch else ' '
  }

  /** Everything not plainly printable becomes a space. */
  function Masked(text: string): (r: string)
    ensures |r| == |text|
  {
    if text == [] then [] else Masked(text[..|text| - 1]) + [MaskedChar(text[|text| - 1])]
  }

  predicate IsWord(w: string) {
    w != [] && ' ' !in w
  }

  predicate AllWords(ws: seq<string>) {
    forall k | 0 <= k < |ws| :: IsWord(ws[k])
  }

  predicate EndsInSpace(s: string) {
    s == [] || s[|s| - 1] == ' '
  }

  /** The maximal runs of `s` without a space, in order. */
  function Words(s: string): (ws: seq<string>)
    ensures AllWords(ws)
    ensures !EndsInSpace(s) ==> ws != []
  {
    if s == [] then []
    else
      var init, ch := s[..|s| - 1], s[|s| - 1];
      var ws := Words(init);
      if ch == ' ' then ws
      else if EndsInSpace(init) then ws + [[ch]]
      else ws[..|ws| - 1] + [ws[|ws| - 1] + [ch]]
  }

  function Spaced(a: string, b: string): string {
    a + " " + b
  }

  /** The parts in order, a single space between neighbours. */
  function Join(parts: seq<string>): string {
    if parts == [] then ""
    else
      var init, last := parts[..|parts| - 1], parts[|parts| - 1];
      if init == [] then last else Spaced(Join(init), last)
  }

  lemma SpacedAssociates(a: string, b: string, c: string)
    ensures Spaced(Spaced(a, b), c) == Spaced(a, Spaced(b, c))
  {
    assert Spaced(a, b) + " " + c == a + " " + Spaced(b, c);
  }

  lemma JoinSnoc(parts: seq<string>, last: string)
    ensures Join(parts + [last]) == if parts == [] then last else Spaced(Join(parts), last)
  {
    hide Spaced;
    assert (parts + [last])[..|parts|] == parts;
  }

  /** Lengthening the last part lengthens what is joined. */
  lemma JoinGrown(parts: seq<string>, more: string)
    requires parts != []
    ensures Join(parts[..|parts| - 1] + [Spaced(parts[|parts| - 1], more)]) == Spaced(Join(parts), more)
  {
    hide Spaced;
    var init, last := parts[..|parts| - 1], parts[|parts| - 1];
    JoinSnoc(init, Spaced(last, more));
    SpacedAssociates(Join(init), last, more);
  }

  // ---- sanitizing ------------------------------------------------------------

  function TrimEnd(s: string): string {
    if s != [] && s[|s| - 1] == ' ' then TrimEnd(s[..|s| - 1]) else s
  }

  function TrimStart(s: string): string {
    if s != [] && s[0] == ' ' then TrimStart(s[1..]) else s
  }

  function Trim(s: string): string {
    TrimStart(TrimEnd(s))
  }

  function Lead(s: string): string {
    if s != [] && s[0] == ' ' then " " else ""
  }

  function Trail(s: string): string {
    if Words(s) != [] && EndsInSpace(s) then " " else ""
  }

  /** The words of `s`, single-spaced, with one space left for any run at either end. */
  function Squeezed(s: string): string {
    Lead(s) + Join(Words(s)) + Trail(s)
  }

  lemma {:induction false} JoinEdges(ws: seq<string>)
    requires AllWords(ws) && ws != []
    ensures var j := Join(ws); j != [] && j[0] != ' ' && j[|j| - 1] != ' '
  {
    var init, last := ws[..|ws| - 1], ws[|ws| - 1];
    assert IsWord(last);
    assert last[0] in last && last[|last| - 1] in last;
    if init != [] {
      JoinEdges(init);
    }
  }

  lemma {:induction false} NoWordsNoLetters(s: string)
    ensures Words(s) == [] <==> forall k | 0 <= k < |s| :: s[k] == ' '
  {
    if s != [] {
      NoWordsNoLetters(s[..|s| - 1]);
      assert s == s[..|s| - 1] + [s[|s| - 1]];
    }
  }

  lemma GrownWord(ws: seq<string>, ch: char)
    requires AllWords(ws) && ws != []
    ensures Join(ws[..|ws| - 1] + [ws[|ws| - 1] + [ch]]) == Join(ws) + [ch]
  {
    var grown := ws[..|ws| - 1] + [ws[|ws| - 1] + [ch]];
    assert grown[..|grown| - 1] == ws[..|ws| - 1];
  }

  lemma SqueezeSpace(s: string)
    ensures Squeezed(s + " ") == if s != [] && EndsInSpace(s) then Squeezed(s) else Squeezed(s) + " "
  {
    var t := s + " ";
    assert t[..|t| - 1] == s;
    assert Words(t) == Words(s);
    hide Words, Join;
    assert s != [] ==> Lead(t) == Lead(s);
    if s == [] {
      NoWordsNoLetters(s);
      assert Join(Words(s)) == "" by { assert Join([]) == ""; }
    }
  }

  lemma SqueezeStart(s: string, ch: char)
    requires ch != ' ' && EndsInSpace(s)
    ensures Squeezed(s + [ch]) == Squeezed(s) + [ch]
  {
    var t, ws := s + [ch], Words(s);
    assert t[..|t| - 1] == s;
    var grown := ws + [[ch]];
    assert Words(t) == grown && grown[..|grown| - 1] == ws;
    assert Join(grown) == if ws == [] then [ch] else Join(ws) + " " + [ch];
    assert Join([]) == "";
    hide Words, Join;
    assert Lead(t) == Lead(s);
  }

  lemma SqueezeInside(s: string, ch: char)
    requires ch != ' ' && !EndsInSpace(s)
    ensures Squeezed(s + [ch]) == Squeezed(s) + [ch]
  {
    var t := s + [ch];
    assert t[..|t| - 1] == s;
    GrownWord(Words(s), ch);
    assert Join(Words(t)) == Join(Words(s)) + [ch];
    hide Words, Join;
    assert Lead(t) == Lead(s) && Trail(t) == Trail(s) == "";
    hide Lead, Trail;
    Lengthen(Lead(s), Join(Words(s)), ch);
  }

  lemma Lengthen(a: string, b: string, ch: char)
    ensures a + (b + [ch]) + "" == a + b + "" + [ch]
  {
  }

  /** One more character: dropped when it is a space after a space, kept otherwise. */
  lemma SqueezeStep(s: string, ch: char)
    ensures Squeezed(s + [ch]) == if ch == ' ' && s != [] && EndsInSpace(s) then Squeezed(s) else Squeezed(s) + [ch]
  {
    hide Squeezed;
    if ch == ' ' {
      SqueezeSpace(s);
    } else if EndsInSpace(s) {
      SqueezeStart(s, ch);
    } else {
      SqueezeInside(s, ch);
    }
  }

  lemma TrimSqueezed(s: string)
    ensures Trim(Squeezed(s)) == Join(Words(s))
  {
    var j := Join(Words(s));
    if Words(s) == [] {
      assert Squeezed(s) == Lead(s);
      assert Lead(s) == " " ==> TrimEnd(" ") == TrimEnd(" "[..0]);
    } else {
      JoinEdges(Words(s));
      var body := Lead(s) + j;
      assert TrimEnd(body) == body;
      if Trail(s) == " " {
        assert (body + " ")[..|body|] == body;
        assert TrimEnd(body + " ") == TrimEnd(body);
      } else {
        assert body + Trail(s) == body;
      }
      assert TrimStart(j) == j;
      if Lead(s) == " " {
        assert body[0] == ' ' && body[1..] == j;
        assert TrimStart(body) == TrimStart(body[1..]);
      } else {
        assert body == j;
      }
    }
  }

  lemma MaskedStep(text: string, i: nat)
    requires i < |text|
    ensures Masked(text[..i + 1]) == Masked(text[..i]) + [MaskedChar(text[i])]
  {
    assert text[..i + 1][..i] == text[..i];
  }

  /** What survives sanitizing is the text's printable words, single-spaced, in order. */
  method Sanitize(text: string) returns (r: string)
    ensures r == Join(Words(Masked(text)))
  {
    hide Squeezed, Masked, Words, Join, Keeps;
    var out := "";
    var lastSpace := false;
    NothingYet();
    for i := 0 to |text|
      invariant out == Squeezed(Masked(text[..i]))
      invariant lastSpace == (i > 0 && EndsInSpace(Masked(text[..i])))
    {
      MaskedStep(text, i);
      SqueezeStep(Masked(text[..i]), MaskedChar(text[i]));
      var ch := if Keeps(text[i]) then text[i] else ' ';
      if ch == ' ' {
        if lastSpace {
          continue;
        }
        lastSpace := true;
      } else {
        lastSpace := false;
      }
      out := out + [ch];
    }
    assert text[..|text|] == text;
    TrimSqueezed(Masked(text));
    r := Trim(out);
  }

  lemma NothingYet()
    ensures Masked("") == "" && Squeezed("") == ""
  {
  }

  // ---- reading back ----------------------------------------------------------

  lemma {:induction false} WordsAppendWord(s: string, w: string)
    requires IsWord(w) && EndsInSpace(s)
    ensures Words(s + w) == Words(s) + [w]
  {
    var t := s + w;
    var init, ch := w[..|w| - 1], w[|w| - 1];
    assert ch in w && w == init + [ch];
    assert t[..|t| - 1] == s + init;
    if init == [] {
      assert s + init == s && w == [ch];
    } else {
      assert init[|init| - 1] in w;
      WordsAppendWord(s, init);
      var ws := Words(s) + [init];
      assert ws[..|ws| - 1] == Words(s);
      assert !EndsInSpace(s + init);
    }
  }

  lemma WordsOfSpaced(s: string, w: string)
    requires IsWord(w)
    ensures Words(Spaced(s, w)) == Words(s) + [w]
  {
    var t := s + " ";
    assert t[..|s|] == s;
    assert Words(t) == Words(s) && EndsInSpace(t);
    hide Words, EndsInSpace;
    WordsAppendWord(t, w);
  }

  lemma WordsOfWord(w: string)
    requires IsWord(w)
    ensures Words(w) == [w]
  {
    WordsAppendWord("", w);
    assert "" + w == w;
  }

  /** Splitting what was joined gives the words back. */
  lemma {:induction false} WordsOfJoin(ws: seq<string>)
    requires AllWords(ws)
    ensures Words(Join(ws)) == ws
  {
    hide Words, Spaced, IsWord;
    if ws == [] {
      NoWords();
    } else {
      var init, last := ws[..|ws| - 1], ws[|ws| - 1];
      WordsOfJoin(init);
      WordsOfWord(last);
      WordsOfSpaced(Join(init), last);
    }
  }

  lemma NoWords()
    ensures Words("") == []
  {
  }

  // ---- every way to wrap -----------------------------------------------------

  /** `lines` with `w` on its last line. */
  function OnLast(lines: seq<string>, w: string): seq<string>
    requires lines != []
  {
    lines[..|lines| - 1] + [Spaced(lines[|lines| - 1], w)]
  }

  /** The lines when word `k` opens a new line exactly where `opens[k]`; the first word always does. */
  function Laid(ws: seq<string>, opens: seq<bool>): (lines: seq<string>)
    requires |opens| == |ws|
    ensures lines == [] <==> ws == []
  {
    if ws == [] then []
    else
      var n := |ws| - 1;
      var lines := Laid(ws[..n], opens[..n]);
      if lines == [] || opens[n] then lines + [ws[n]] else OnLast(lines, ws[n])
  }

  predicate AllFit(lines: seq<string>, width: nat) {
    forall k | 0 <= k < |lines| :: |lines[k]| <= width
  }

  /** However the words are wrapped, reading the lines back gives the words back. */
  lemma {:induction false} LaidReadsBack(ws: seq<string>, opens: seq<bool>)
    requires |opens| == |ws|
    ensures Join(Laid(ws, opens)) == Join(ws)
  {
    if ws != [] {
      var n := |ws| - 1;
      var before := Laid(ws[..n], opens[..n]);
      LaidReadsBack(ws[..n], opens[..n]);
      assert ws == ws[..n] + [ws[n]];
      hide Join, Spaced;
      JoinSnoc(ws[..n], ws[n]);
      JoinSnoc(before, ws[n]);
      if before != [] {
        JoinGrown(before, ws[n]);
      }
    }
  }

  /** Greedy: a word opens a new line only when it does not fit on the last one. */
  function Filled(ws: seq<string>, width: nat): (lines: seq<string>)
    ensures lines == [] <==> ws == []
  {
    if ws == [] then []
    else
      var lines, w := Filled(ws[..|ws| - 1], width), ws[|ws| - 1];
      if lines != [] && |lines[|lines| - 1]| + 1 + |w| <= width then OnLast(lines, w) else lines + [w]
  }

  /** The greedy's lines are one way to wrap the words. */
  lemma {:induction false} FilledIsLaid(ws: seq<string>, width: nat) returns (opens: seq<bool>)
    ensures |opens| == |ws| && Laid(ws, opens) == Filled(ws, width)
  {
    if ws == [] {
      opens := [];
    } else {
      var n := |ws| - 1;
      var before := FilledIsLaid(ws[..n], width);
      var lines := Filled(ws[..n], width);
      opens := before + [lines == [] || |lines[|lines| - 1]| + 1 + |ws[n]| > width];
      assert opens[..n] == before;
    }
  }

  lemma {:induction false} FilledFits(ws: seq<string>, width: nat)
    requires AllFit(ws, width)
    ensures AllFit(Filled(ws, width), width)
  {
    if ws != [] {
      FilledFits(ws[..|ws| - 1], width);
    }
  }

  lemma LaidLast(ws: seq<string>, opens: seq<bool>)
    requires |opens| == |ws| > 0
    ensures var l, before, n := Laid(ws, opens), Laid(ws[..|ws| - 1], opens[..|ws| - 1]), |ws| - 1;
      l == if before == [] || opens[n] then before + [ws[n]] else OnLast(before, ws[n])
  {
  }

  /** One more word only lengthens lines. */
  lemma WordOnly(lines: seq<string>, w: string, opens: bool, width: nat)
    requires AllFit(if lines == [] || opens then lines + [w] else OnLast(lines, w), width)
    ensures AllFit(lines, width)
  {
    var l := if lines == [] || opens then lines + [w] else OnLast(lines, w);
    forall k | 0 <= k < |lines|
      ensures |lines[k]| <= width
    {
      assert |l[k]| <= width;
      assert k < |lines| - 1 ==> l[k] == lines[k];
    }
  }

  /** `f` uses fewer lines than `l`, or as many and leaves at least as much room on the last. */
  predicate NoLonger(f: seq<string>, l: seq<string>) {
    |f| <= |l| && (|f| == |l| && f != [] ==> |f[|f| - 1]| <= |l[|l| - 1]|)
  }

  /** Greedy stays ahead: one more word on each, the greedy taking a new line only when it must. */
  lemma StaysAhead(f: seq<string>, l: seq<string>, w: string, width: nat, opens: bool)
    requires NoLonger(f, l) && (f == [] <==> l == [])
    requires AllFit(if l == [] || opens then l + [w] else OnLast(l, w), width)
    ensures NoLonger(if f != [] && |f[|f| - 1]| + 1 + |w| <= width then OnLast(f, w) else f + [w],
                     if l == [] || opens then l + [w] else OnLast(l, w))
  {
    var longer := if l == [] || opens then l + [w] else OnLast(l, w);
    assert |longer[|longer| - 1]| <= width;
  }

  /** No way to wrap the words into lines that fit uses fewer lines than the greedy; one that uses as many
      leaves no more room on its last line. */
  lemma {:induction false} FilledIsLeast(ws: seq<string>, width: nat, opens: seq<bool>)
    requires |opens| == |ws| && AllFit(Laid(ws, opens), width)
    ensures NoLonger(Filled(ws, width), Laid(ws, opens))
  {
    if ws != [] {
      hide NoLonger, OnLast, Laid;
      var n := |ws| - 1;
      var before := Laid(ws[..n], opens[..n]);
      LaidLast(ws, opens);
      WordOnly(before, ws[n], opens[n], width);
      FilledIsLeast(ws[..n], width, opens[..n]);
      StaysAhead(Filled(ws[..n], width), before, ws[n], width, opens[n]);
    }
  }

  // ---- words longer than a line ----------------------------------------------

  /** A word cut into pieces of `width`, the last one whatever is left. */
  function Pieces(w: string, width: nat): (ps: seq<string>)
    requires width > 0
    ensures ps != []
  {
    if |w| <= width then [w] else [w[..width]] + Pieces(w[width..], width)
  }

  function AllPieces(ws: seq<string>, width: nat): seq<string>
    requires width > 0
  {
    if ws == [] then [] else AllPieces(ws[..|ws| - 1], width) + Pieces(ws[|ws| - 1], width)
  }

  function Letters(ws: seq<string>): string {
    if ws == [] then "" else Letters(ws[..|ws| - 1]) + ws[|ws| - 1]
  }

  lemma {:induction false} LettersConcat(a: seq<string>, b: seq<string>)
    ensures Letters(a + b) == Letters(a) + Letters(b)
  {
    hide Letters;
    LettersOfNone();
    if b == [] {
      assert a + b == a;
    } else {
      var init, last := b[..|b| - 1], b[|b| - 1];
      LettersConcat(a, init);
      LettersOnto(a + init, last);
      LettersOnto(init, last);
      assert b == init + [last] && a + b == a + init + [last];
      Associates(Letters(a), Letters(init), last);
    }
  }

  lemma LettersOfNone()
    ensures Letters([]) == []
  {
  }

  lemma LettersOnto(ws: seq<string>, w: string)
    ensures Letters(ws + [w]) == Letters(ws) + w
  {
    assert (ws + [w])[..|ws|] == ws;
  }

  lemma {:induction false} PiecesWhole(w: string, width: nat)
    requires width > 0 && IsWord(w)
    ensures AllWords(Pieces(w, width)) && AllFit(Pieces(w, width), width) && Letters(Pieces(w, width)) == w
    decreases |w|
  {
    hide Pieces, Letters, AllWords, AllFit, IsWord;
    if |w| <= width {
      ShortPiece(w, width);
    } else {
      var head, rest := w[..width], w[width..];
      LongPieces(w, width);
      PiecesWhole(rest, width);
      Prepended(head, Pieces(rest, width), width);
      LettersConcat([head], Pieces(rest, width));
      LettersOfOne(head);
      assert w == head + rest;
    }
  }

  lemma ShortPiece(w: string, width: nat)
    requires IsWord(w) && |w| <= width
    ensures Pieces(w, width) == [w] && AllWords([w]) && AllFit([w], width) && Letters([w]) == w
  {
    LettersOfOne(w);
  }

  lemma LongPieces(w: string, width: nat)
    requires IsWord(w) && 0 < width < |w|
    ensures Pieces(w, width) == [w[..width]] + Pieces(w[width..], width)
    ensures IsWord(w[..width]) && IsWord(w[width..])
  {
  }

  lemma Prepended(head: string, later: seq<string>, width: nat)
    requires IsWord(head) && |head| <= width && AllWords(later) && AllFit(later, width)
    ensures AllWords([head] + later) && AllFit([head] + later, width)
  {
  }

  lemma LettersOfOne(w: string)
    ensures Letters([w]) == w
  {
    assert Letters([w]) == Letters([]) + w;
  }

  /** Cutting words into pieces that fit loses no letter and reorders none. */
  lemma {:induction false} AllPiecesWhole(ws: seq<string>, width: nat)
    requires width > 0 && AllWords(ws)
    ensures AllWords(AllPieces(ws, width)) && AllFit(AllPieces(ws, width), width)
    ensures Letters(AllPieces(ws, width)) == Letters(ws)
    ensures AllPieces(ws, width) == [] <==> ws == []
  {
    if ws != [] {
      var n := |ws| - 1;
      AllPiecesWhole(ws[..n], width);
      PiecesWhole(ws[n], width);
      LettersConcat(AllPieces(ws[..n], width), Pieces(ws[n], width));
    }
  }

  lemma {:induction false} ShortWordsUncut(ws: seq<string>, width: nat)
    requires width > 0 && AllFit(ws, width)
    ensures AllPieces(ws, width) == ws
  {
    if ws != [] {
      ShortWordsUncut(ws[..|ws| - 1], width);
    }
  }

  // ---- the card --------------------------------------------------------------

  /** Characters that fit on a line, counting each as wide as 0.55 of the font size. */
  function MaxChars(fontsize: nat): nat
    requires fontsize > 0
  {
    var chars := (USABLE_PX as real / (fontsize as real * 0.55)).Floor;
    if chars < 1 then 1 else chars
  }

  /** A line cut to leave room for the ellipsis, and marked with it. */
  function Marked(line: string, width: nat): string {
    var budget := if width < |ELLIPSIS| then 0 else width - |ELLIPSIS|;
    (if |line| > budget then line[..budget] else line) + ELLIPSIS
  }

  function Cut(full: seq<string>, width: nat, maxLines: nat): seq<string> {
    if |full| <= maxLines then full
    else if maxLines == 0 then []
    else full[..maxLines - 1] + [Marked(full[maxLines - 1], width)]
  }

  /** The lines the text fills when nothing limits their number. */
  function Full(text: string, width: nat): seq<string>
    requires width > 0
  {
    Filled(AllPieces(Words(Masked(text)), width), width)
  }

  function Card(text: string, width: nat, maxLines: nat): seq<string>
    requires width > 0
  {
    var kept := Cut(Full(text, width), width, maxLines);
    if kept == [] then [UNKNOWN] else kept
  }

  function Pending(current: string): seq<string> {
    if current == "" then [] else [current]
  }

  /** Where every line up to `current` stands once the pieces `ps` are placed. */
  predicate Holds(lines: seq<string>, current: string, ps: seq<string>, width: nat) {
    lines + Pending(current) == Filled(ps, width) && (current == "" ==> ps == [])
  }

  lemma PlaceWord(lines: seq<string>, current: string, ps: seq<string>, width: nat, w: string)
    requires Holds(lines, current, ps, width) && IsWord(w) && |w| <= width
    ensures current == "" ==> Holds(lines, w, ps + [w], width)
    ensures current != "" && |current| + 1 + |w| > width ==> Holds(lines + [current], w, ps + [w], width)
    ensures current != "" && |current| + 1 + |w| <= width ==> Holds(lines, Spaced(current, w), ps + [w], width)
  {
    assert (ps + [w])[..|ps|] == ps;
    if current != "" {
      assert (lines + [current])[..|lines|] == lines;
    }
  }

  /** A piece as long as a line, or one after such a piece, opens a line of its own. */
  lemma WholeLine(ps: seq<string>, width: nat, piece: string)
    requires piece != "" && width > 0
    requires |piece| == width || (Filled(ps, width) != [] && |Filled(ps, width)[|Filled(ps, width)| - 1]| == width)
    ensures Filled(ps + [piece], width) == Filled(ps, width) + [piece]
  {
    assert (ps + [piece])[..|ps|] == ps;
  }

  /** Where a word's splitting stands: the lines hold the pieces done, and none of them takes anything more. */
  ghost predicate Splitting(lines: seq<string>, ps: seq<string>, done: seq<string>, width: nat) {
    lines == Filled(ps + done, width) && (done != [] ==> lines != [] && |lines[|lines| - 1]| == width)
  }

  lemma SplitHead(lines: seq<string>, ps: seq<string>, done: seq<string>, width: nat, rest: string)
    requires 0 < width < |rest| && Splitting(lines, ps, done, width)
    ensures Splitting(lines + [rest[..width]], ps, done + [rest[..width]], width)
  {
    hide Filled;
    var head := rest[..width];
    WholeLine(ps + done, width, head);
    assert ps + done + [head] == ps + (done + [head]);
  }

  lemma PiecesHead(done: seq<string>, width: nat, rest: string)
    requires 0 < width < |rest|
    ensures done + Pieces(rest, width) == done + [rest[..width]] + Pieces(rest[width..], width)
  {
    var head, later := rest[..width], Pieces(rest[width..], width);
    assert Pieces(rest, width) == [head] + later;
    hide Pieces;
    assert done + ([head] + later) == done + [head] + later;
  }

  lemma SplitLast(lines: seq<string>, ps: seq<string>, done: seq<string>, width: nat, rest: string)
    requires 0 < |rest| <= width && done != [] && Splitting(lines, ps, done, width)
    ensures Holds(lines, rest, ps + (done + Pieces(rest, width)), width)
  {
    WholeLine(ps + done, width, rest);
    assert Pieces(rest, width) == [rest];
    hide Filled, Pieces;
    assert ps + done + [rest] == ps + (done + [rest]);
    assert lines + Pending(rest) == lines + [rest];
  }

  /** A word longer than a line, cut into lines of its own; what is left waits for the next word. */
  method HardSplit(word: string, width: nat, lines0: seq<string>, ghost ps: seq<string>)
    returns (lines: seq<string>, current: string)
    requires 0 < width < |word| && IsWord(word) && lines0 == Filled(ps, width)
    ensures current != "" && Holds(lines, current, ps + Pieces(word, width), width)
  {
    lines := lines0;
    var rest := word;
    ghost var done := [];
    assert Splitting(lines, ps, done, width) by {
      assert ps + done == ps;
    }
    hide Splitting, Pieces, Holds, Filled;
    while |rest| > width
      invariant rest != "" && done + Pieces(rest, width) == Pieces(word, width)
      invariant Splitting(lines, ps, done, width)
      invariant done == [] ==> |rest| > width
      decreases |rest|
    {
      SplitHead(lines, ps, done, width, rest);
      PiecesHead(done, width, rest);
      done := done + [rest[..width]];
      lines, rest := lines + [rest[..width]], rest[width..];
    }
    SplitLast(lines, ps, done, width, rest);
    current := rest;
  }

  lemma NextPieces(ws: seq<string>, i: nat, width: nat)
    requires width > 0 && i < |ws|
    ensures AllPieces(ws[..i + 1], width) == AllPieces(ws[..i], width) + Pieces(ws[i], width)
  {
    assert ws[..i + 1][..i] == ws[..i];
  }

  method Fill(ws: seq<string>, width: nat) returns (lines: seq<string>)
    requires width > 0 && AllWords(ws)
    ensures lines == Filled(AllPieces(ws, width), width)
  {
    hide Filled, AllPieces, Holds;
    lines := [];
    var current := "";
    NothingFilled(width);
    for i := 0 to |ws|
      invariant Holds(lines, current, AllPieces(ws[..i], width), width)
    {
      var word := ws[i];
      assert IsWord(word);
      ghost var ps := AllPieces(ws[..i], width);
      NextPieces(ws, i, width);
      Closed(lines, current, ps, width);
      if |word| > width {
        lines, current := HardSplit(word, width, if current != "" then lines + [current] else lines, ps);
        continue;
      }
      PlaceWord(lines, current, ps, width, word);
      var candidate := if current == "" then |word| else |current| + 1 + |word|;
      if candidate > width {
        lines, current := lines + [current], word;
      } else {
        current := if current != "" then current + " " + word else word;
      }
    }
    assert ws[..|ws|] == ws;
    Closed(lines, current, AllPieces(ws, width), width);
    if current != "" {
      lines := lines + [current];
    }
  }

  lemma NothingFilled(width: nat)
    requires width > 0
    ensures Holds([], "", AllPieces([], width), width)
  {
  }

  lemma Closed(lines: seq<string>, current: string, ps: seq<string>, width: nat)
    requires Holds(lines, current, ps, width)
    ensures (if current != "" then lines + [current] else lines) == Filled(ps, width)
  {
  }

  method CutLines(full: seq<string>, width: nat, maxLines: nat) returns (lines: seq<string>)
    ensures lines == Cut(full, width, maxLines)
  {
    lines := full;
    if |lines| > maxLines {
      lines := lines[..maxLines];
      if lines != [] {
        var last := lines[|lines| - 1];
        var budget := if width < |ELLIPSIS| then 0 else width - |ELLIPSIS|;
        if |last| > budget {
          last := last[..budget];
        }
        lines := lines[..|lines| - 1] + [last + ELLIPSIS];
      }
    }
  }

  method Wrap(text: string, width: nat, maxLines: nat) returns (lines: seq<string>)
    requires width > 0
    ensures lines == Card(text, width, maxLines)
  {
    hide Filled, AllPieces, Words, Masked, Cut, Trim;
    var sanitized := Sanitize(text);
    WordsOfJoin(Words(Masked(text)));
    var words := Words(sanitized);
    var full := Fill(words, width);
    lines := CutLines(full, width, maxLines);
    CardSpeaks(words, width, maxLines);
    if lines == [] || forall k | 0 <= k < |lines| :: Trim(lines[k]) == "" {
      lines := [UNKNOWN];
    }
  }

  /** Whether a line says anything at all. */
  ghost predicate Speaks(s: string) {
    exists k | 0 <= k < |s| :: s[k] != ' '
  }

  lemma SpeaksTrimmed(s: string)
    requires Speaks(s)
    ensures Trim(s) != ""
  {
    var k :| 0 <= k < |s| && s[k] != ' ';
    TrimEndKeeps(s, k);
    TrimStartKeeps(TrimEnd(s), k);
  }

  lemma {:induction false} TrimEndKeeps(s: string, k: nat)
    requires k < |s| && s[k] != ' '
    ensures k < |TrimEnd(s)| && TrimEnd(s)[k] == s[k]
  {
    if s[|s| - 1] == ' ' {
      TrimEndKeeps(s[..|s| - 1], k);
    }
  }

  lemma {:induction false} TrimStartKeeps(s: string, k: nat)
    requires k < |s| && s[k] != ' '
    ensures TrimStart(s) != ""
  {
    if s[0] == ' ' {
      TrimStartKeeps(s[1..], k - 1);
    }
  }

  lemma SpeaksOn(a: string, b: string)
    requires Speaks(a) || Speaks(b)
    ensures Speaks(a + b)
  {
    if Speaks(a) {
      var k :| 0 <= k < |a| && a[k] != ' ';
      assert (a + b)[k] == a[k];
    } else {
      var k :| 0 <= k < |b| && b[k] != ' ';
      assert (a + b)[|a| + k] == b[k];
    }
  }

  lemma WordSpeaks(w: string)
    requires IsWord(w)
    ensures Speaks(w)
  {
    assert w[0] in w;
  }

  /** No line a word was ever placed on is blank. */
  lemma {:induction false} FilledSpeaks(ws: seq<string>, width: nat)
    requires AllWords(ws)
    ensures forall line <- Filled(ws, width) :: Speaks(line)
  {
    if ws != [] {
      var lines, w := Filled(ws[..|ws| - 1], width), ws[|ws| - 1];
      FilledSpeaks(ws[..|ws| - 1], width);
      WordSpeaks(w);
      if lines != [] {
        SpeaksOn(lines[|lines| - 1] + " ", w);
      }
    }
  }

  lemma CardSpeaks(ws: seq<string>, width: nat, maxLines: nat)
    requires width > 0 && AllWords(ws)
    ensures var lines := Cut(Filled(AllPieces(ws, width), width), width, maxLines); lines != [] ==> Trim(lines[0]) != ""
  {
    hide Speaks, Trim, Filled, AllPieces;
    AllPiecesWhole(ws, width);
    var full := Filled(AllPieces(ws, width), width);
    FilledSpeaks(AllPieces(ws, width), width);
    var lines := Cut(full, width, maxLines);
    if lines != [] {
      if |full| > maxLines == 1 {
        MarkSpeaks(full[0], width);
      } else {
        assert lines[0] == full[0];
      }
      SpeaksTrimmed(lines[0]);
    }
  }

  lemma MarkSpeaks(line: string, width: nat)
    ensures Speaks(Marked(line, width))
  {
    var m := Marked(line, width);
    assert m[|m| - 1] == '.';
  }

  // ---- what the card promises ------------------------------------------------

  /** Never nothing, never more lines than asked for. */
  lemma CardLines(text: string, width: nat, maxLines: nat)
    requires width > 0
    ensures 1 <= |Card(text, width, maxLines)| <= if maxLines < 1 then 1 else maxLines
  {
    hide Full;
  }

  lemma FullFits(text: string, width: nat)
    requires width > 0
    ensures AllFit(Full(text, width), width) && (Full(text, width) == [] <==> Words(Masked(text)) == [])
  {
    AllPiecesWhole(Words(Masked(text)), width);
    FilledFits(AllPieces(Words(Masked(text)), width), width);
  }

  /** Every line fits exactly when the width leaves room for whatever is not the text's own: the ellipsis when
      lines were dropped, the placeholder when there is nothing to show. */
  lemma CardFitsIff(text: string, width: nat, maxLines: nat)
    requires width > 0
    ensures AllFit(Card(text, width, maxLines), width) <==>
              if Words(Masked(text)) == [] || maxLines == 0 then |UNKNOWN| <= width
              else |Full(text, width)| <= maxLines || |ELLIPSIS| <= width
  {
    hide Full, Words, Masked;
    FullFits(text, width);
    var full, card := Full(text, width), Card(text, width, maxLines);
    if full == [] || maxLines == 0 {
      assert card == [UNKNOWN] && card[0] == UNKNOWN;
    } else if |full| > maxLines {
      assert card[maxLines - 1] == Marked(full[maxLines - 1], width);
      assert forall k | 0 <= k < maxLines - 1 :: card[k] == full[k];
    }
  }

  /** When there are too many lines, the first of them are shown as they are, and as much as fits before the ellipsis of
      the last that can be: all of it, or what leaves room for the three dots, or nothing. */
  lemma CutShowsTheStart(text: string, width: nat, maxLines: nat)
    requires width > 0 && 0 < maxLines < |Full(text, width)|
    ensures var full, card := Full(text, width), Card(text, width, maxLines);
      && |card| == maxLines && card[..maxLines - 1] == full[..maxLines - 1]
      && var line, last := full[maxLines - 1], card[maxLines - 1];
         && |last| >= 3 && last[|last| - 3..] == "..."
         && var kept := last[..|last| - 3];
            kept <= line && (kept == line || |last| == width || (kept == "" && width < 3))
            && (width >= 3 ==> |last| <= width)
  {
    hide Full;
    var full, card := Full(text, width), Card(text, width, maxLines);
    var line := full[maxLines - 1];
    assert card[maxLines - 1] == Marked(line, width);
    MarkedIs(line, width);
  }

  lemma MarkedIs(line: string, width: nat)
    ensures var last := Marked(line, width);
      && |last| >= 3 && last[|last| - 3..] == "..."
      && var kept := last[..|last| - 3];
         kept <= line && (kept == line || |last| == width || (kept == "" && width < 3))
         && (width >= 3 ==> |last| <= width)
  {
    var budget := if width < 3 then 0 else width - 3;
    var kept := if |line| > budget then line[..budget] else line;
    assert Marked(line, width) == kept + "...";
    assert (kept + "...")[|kept|..] == "..." && (kept + "...")[..|kept|] == kept;
  }

  /** Every piece a long word is cut into but the last is as long as a line. */
  lemma {:induction false} PiecesAreFull(w: string, width: nat)
    requires width > 0
    ensures var ps := Pieces(w, width);
      (forall k | 0 <= k < |ps| - 1 :: |ps[k]| == width) && |ps[|ps| - 1]| <= width && (w != "" ==> ps[|ps| - 1] != "")
    decreases |w|
  {
    if |w| > width {
      PiecesAreFull(w[width..], width);
    }
  }

  /** On the card's own reason line everything always fits, whatever the text. */
  lemma ReasonFits(text: string)
    ensures AllFit(Card(text, MaxChars(REASON_FONTSIZE), REASON_MAX_LINES), MaxChars(REASON_FONTSIZE))
  {
    assert MaxChars(REASON_FONTSIZE) == 87;
    CardFitsIff(text, 87, REASON_MAX_LINES);
  }

  /** Some way to wrap the words puts them on at most `maxLines` lines that all fit. */
  ghost predicate Wrappable(ws: seq<string>, width: nat, maxLines: nat) {
    exists opens: seq<bool> :: |opens| == |ws| && AllFit(Laid(ws, opens), width) && |Laid(ws, opens)| <= maxLines
  }

  /** When every word fits on a line, text is cut only if no wrapping into `maxLines` lines exists; otherwise the
      card shows the sanitized text, line breaks for spaces, and splitting it gives every word back. */
  lemma CutOnlyWhenForced(text: string, width: nat, maxLines: nat)
    requires width > 0 && AllFit(Words(Masked(text)), width) && Words(Masked(text)) != []
    ensures |Full(text, width)| <= maxLines <==> Wrappable(Words(Masked(text)), width, maxLines)
    ensures Wrappable(Words(Masked(text)), width, maxLines) ==>
              Join(Card(text, width, maxLines)) == Join(Words(Masked(text)))
              && Words(Join(Card(text, width, maxLines))) == Words(Masked(text))
    ensures !Wrappable(Words(Masked(text)), width, maxLines) && maxLines > 0 ==>
              |Card(text, width, maxLines)| == maxLines
              && var last := Card(text, width, maxLines)[maxLines - 1];
                 |last| >= 3 && ELLIPSIS <= last[|last| - 3..]
  {
    var ws := Words(Masked(text));
    hide Words, Masked, Join;
    ShortWordsUncut(ws, width);
    FilledFits(ws, width);
    var opens := FilledIsLaid(ws, width);
    LaidReadsBack(ws, opens);
    WordsOfJoin(ws);
    assert Full(text, width) == Filled(ws, width);
    forall o: seq<bool> | |o| == |ws| && AllFit(Laid(ws, o), width)
      ensures |Filled(ws, width)| <= |Laid(ws, o)|
    {
      FilledIsLeast(ws, width, o);
    }
  }

  /** Words too long for a line are cut into lines of their own, and still no letter is lost or moved unless
      lines are dropped. */
  lemma LettersSurvive(text: string, width: nat, maxLines: nat)
    requires width > 0 && Words(Masked(text)) != [] && |Full(text, width)| <= maxLines
    ensures Letters(Words(Join(Card(text, width, maxLines)))) == Letters(Words(Masked(text)))
  {
    var ws := Words(Masked(text));
    hide Words, Masked, Join, Letters;
    var ps := AllPieces(ws, width);
    AllPiecesWhole(ws, width);
    var opens := FilledIsLaid(ps, width);
    LaidReadsBack(ps, opens);
    WordsOfJoin(ps);
  }

  // ---- nothing but plain characters ------------------------------------------

  /** `n` characters from `first` on. */
  function Run(first: char, n: nat): (r: string)
    requires first as int + n <= 128
    ensures |r| == n && forall k | 0 <= k < n :: r[k] == (first as int + k) as char
  {
    seq(n, k requires 0 <= k < n => (first as int + k) as char)
  }

  /** Letters, digits and six others. */
  const PLAIN := Run('a', 26) + Run('A', 26) + Run('0', 10) + " .-_()"

  lemma InRun(ch: char, first: char, n: nat)
    requires first as int + n <= 128
    ensures ch in Run(first, n) <==> first as int <= ch as int < first as int + n
  {
    if first as int <= ch as int < first as int + n {
      assert Run(first, n)[ch as int - first as int] == ch;
    }
  }

  lemma KeepsMeans(ch: char)
    ensures Keeps(ch) <==> ch in PLAIN
  {
    InRun(ch, 'a', 26);
    InRun(ch, 'A', 26);
    InRun(ch, '0', 10);
    hide Run;
  }

  /** A plain character stays where it is, and any other leaves a space there. */
  lemma {:induction false} MaskedMeans(text: string)
    ensures forall k | 0 <= k < |text| :: Masked(text)[k] == if text[k] in PLAIN then text[k] else ' '
  {
    if text != [] {
      MaskedMeans(text[..|text| - 1]);
      KeepsMeans(text[|text| - 1]);
    }
  }

  /** Nothing in it that could mean anything to a filter. */
  ghost predicate AllPlain(s: string) {
    forall ch <- s :: ch in PLAIN
  }

  ghost predicate EachPlain(lines: seq<string>) {
    forall line <- lines :: AllPlain(line)
  }

  lemma MaskedPlain(text: string)
    ensures AllPlain(Masked(text))
  {
    hide Masked;
    MaskedMeans(text);
    KeepsMeans(' ');
  }

  lemma PlainOn(a: string, b: string)
    requires AllPlain(a) && AllPlain(b)
    ensures AllPlain(a + b)
  {
  }

  lemma PlainUpTo(s: string, k: nat)
    requires AllPlain(s) && k <= |s|
    ensures AllPlain(s[..k]) && AllPlain(s[k..])
  {
  }

  lemma OnePlain(s: string)
    requires AllPlain(s) && s != []
    ensures AllPlain([s[|s| - 1]]) && AllPlain(s[..|s| - 1])
  {
  }

  lemma EachPlainOn(lines: seq<string>, line: string)
    requires EachPlain(lines) && AllPlain(line)
    ensures EachPlain(lines + [line])
  {
  }

  lemma EachPlainUpTo(lines: seq<string>, k: nat)
    requires EachPlain(lines) && k <= |lines|
    ensures EachPlain(lines[..k]) && (k < |lines| ==> AllPlain(lines[k]))
  {
  }

  lemma {:induction false} WordsPlain(s: string)
    requires AllPlain(s)
    ensures EachPlain(Words(s))
  {
    hide AllPlain, EachPlain;
    if s == [] {
      NonePlain();
    } else {
      OnePlain(s);
      WordsPlain(s[..|s| - 1]);
      var ws, ch := Words(s[..|s| - 1]), [s[|s| - 1]];
      EachPlainOn(ws, ch);
      if ws != [] {
        EachPlainUpTo(ws, |ws| - 1);
        PlainOn(ws[|ws| - 1], ch);
        EachPlainOn(ws[..|ws| - 1], ws[|ws| - 1] + ch);
      }
    }
  }

  lemma NonePlain()
    ensures EachPlain([])
  {
  }

  lemma {:induction false} PiecesPlain(w: string, width: nat)
    requires width > 0 && AllPlain(w)
    ensures EachPlain(Pieces(w, width))
    decreases |w|
  {
    if |w| > width {
      PlainUpTo(w, width);
      PiecesPlain(w[width..], width);
    }
  }

  lemma {:induction false} AllPiecesPlain(ws: seq<string>, width: nat)
    requires width > 0 && EachPlain(ws)
    ensures EachPlain(AllPieces(ws, width))
  {
    if ws != [] {
      var n := |ws| - 1;
      EachPlainUpTo(ws, n);
      AllPiecesPlain(ws[..n], width);
      PiecesPlain(ws[n], width);
      hide AllPlain;
    }
  }

  lemma {:induction false} FilledPlain(ws: seq<string>, width: nat)
    requires EachPlain(ws)
    ensures EachPlain(Filled(ws, width))
  {
    hide AllPlain, EachPlain;
    if ws == [] {
      NonePlain();
    } else {
      var n := |ws| - 1;
      EachPlainUpTo(ws, n);
      FilledPlain(ws[..n], width);
      var lines, w := Filled(ws[..n], width), ws[n];
      EachPlainOn(lines, w);
      if lines != [] {
        EachPlainUpTo(lines, |lines| - 1);
        SpacePlain();
        PlainOn(lines[|lines| - 1], " ");
        PlainOn(lines[|lines| - 1] + " ", w);
        EachPlainOn(lines[..|lines| - 1], Spaced(lines[|lines| - 1], w));
      }
    }
  }

  lemma SpacePlain()
    ensures AllPlain(" ") && AllPlain(ELLIPSIS) && AllPlain(UNKNOWN)
  {
    forall ch | ch in " " || ch in ELLIPSIS || ch in UNKNOWN
      ensures ch in PLAIN
    {
      KeepsMeans(ch);
    }
  }

  lemma CutPlain(full: seq<string>, width: nat, maxLines: nat)
    requires EachPlain(full)
    ensures EachPlain(Cut(full, width, maxLines))
  {
    hide AllPlain, EachPlain;
    if |full| > maxLines {
      NonePlain();
      if maxLines > 0 {
        EachPlainUpTo(full, maxLines - 1);
        var line := full[maxLines - 1];
        var budget := if width < |ELLIPSIS| then 0 else width - |ELLIPSIS|;
        SpacePlain();
        if |line| > budget {
          PlainUpTo(line, budget);
          PlainOn(line[..budget], ELLIPSIS);
        } else {
          PlainOn(line, ELLIPSIS);
        }
        EachPlainOn(full[..maxLines - 1], Marked(line, width));
      }
    }
  }

  /** Whatever the text, the card shows nothing but plain characters: none that has a meaning in a filter's syntax. */
  lemma CardIsPlain(text: string, width: nat, maxLines: nat)
    requires width > 0
    ensures forall line <- Card(text, width, maxLines) :: forall ch <- line :: ch in PLAIN && ch !in ":,;[]'\\%"
  {
    hide Masked, Words, Filled, AllPieces, Cut;
    MaskedPlain(text);
    WordsPlain(Masked(text));
    AllPiecesPlain(Words(Masked(text)), width);
    FilledPlain(AllPieces(Words(Masked(text)), width), width);
    CutPlain(Full(text, width), width, maxLines);
    SpacePlain();
    hide Full;
    forall line <- Card(text, width, maxLines)
      ensures AllPlain(line)
    {
    }
    forall ch | ch in PLAIN
      ensures ch !in ":,;[]'\\%"
    {
      KeepsMeans(ch);
      NoSyntax(ch);
    }
  }

  lemma NoSyntax(ch: char)
    requires Keeps(ch)
    ensures ch !in ":,;[]'\\%"
  {
  }

  // ---- how much fits ---------------------------------------------------------

  /** How wide a character is taken to be. */
  function CharPx(fontsize: nat): real {
    fontsize as real * 0.55
  }

  /** How wide that many are. */
  function WidthPx(chars: nat, fontsize: nat): real {
    chars as real * CharPx(fontsize)
  }

  /** As many characters as the frame, less a margin of 60 pixels on either side, holds, and no more; but one at the
      least. */
  lemma MaxCharsMeans(fontsize: nat)
    requires fontsize > 0
    ensures var n := MaxChars(fontsize);
      n >= 1 && (n > 1 ==> WidthPx(n, fontsize) <= 1160.0) && 1160.0 < WidthPx(n + 1, fontsize)
  {
    var px, n := CharPx(fontsize), MaxChars(fontsize);
    QuotientPositive(1160.0, px);
    var exact := 1160.0 / px;
    assert n >= 1 && exact < (n + 1) as real && (n > 1 ==> n as real <= exact);
    hide MaxChars;
    ScaledOrder(n as real, exact, px, WidthPx(n, fontsize), 1160.0);
    ScaledOrder((n + 1) as real, exact, px, WidthPx(n + 1, fontsize), 1160.0);
  }

  /** The reason takes three lines of 87 characters at the most. */
  lemma ReasonIsShort(text: string)
    ensures var card := Card(text, MaxChars(REASON_FONTSIZE), REASON_MAX_LINES);
      1 <= |card| <= 3 && forall line <- card :: |line| <= 87
  {
    hide Full;
    assert MaxChars(REASON_FONTSIZE) == 87;
    CardLines(text, 87, REASON_MAX_LINES);
    ReasonFits(text);
  }
}
