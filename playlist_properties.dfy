/** What the `#EXTINF` line machine of `Playlist` computes, stated without
    the machine: an entry is emitted for every URL line whose nearest
    preceding non-ignored line is an `#EXTINF` line, numbered in source
    order. */
module PlaylistProperties {
  import opened Wrappers
  import opened JsString
  import opened Playlist

  /** The last line before `n` that is not ignored, if any. */
  function LastSignificant(lines: seq<Line>, n: nat): (r: Option<nat>)
    requires n <= |lines|
    ensures r.Some? ==> r.value < n && !lines[r.value].Ignored?
    ensures r.Some? ==> forall m | r.value < m < n :: lines[m].Ignored?
    ensures r.None? ==> forall m | 0 <= m < n :: lines[m].Ignored?
  {
    if n == 0 then None
    else if !lines[n - 1].Ignored? then Some(n - 1)
    else LastSignificant(lines, n - 1)
  }

  /** The `#EXTINF` line that line `j` would close, if `j` is a URL line. */
  function OpenerOf(lines: seq<Line>, j: nat): Option<nat>
    requires j < |lines|
  {
    var prev := LastSignificant(lines, j);
    if lines[j].Url? && prev.Some? && lines[prev.value].Info? then prev else None
  }

  /** An `#EXTINF` line paired with the URL line that closed it. */
  datatype Pairing = Pairing(info: nat, ref: nat)

  /** An `#EXTINF` line, a later URL line, and only ignored lines between. */
  predicate PairedLines(lines: seq<Line>, p: Pairing) {
    && p.info < p.ref < |lines|
    && lines[p.info].Info?
    && lines[p.ref].Url?
    && forall m | p.info < m < p.ref :: lines[m].Ignored?
  }

  /** A significant line followed only by ignored lines up to `n` is the
      last significant line before `n`. */
  lemma LastSignificantAt(lines: seq<Line>, n: nat, i: nat)
    requires i < n <= |lines| && !lines[i].Ignored?
    requires forall m | i < m < n :: lines[m].Ignored?
    ensures LastSignificant(lines, n) == Some(i)
  {
  }

  /** The pairings among the first `n` lines, in source order: each pairs an
      `#EXTINF` line with a later URL line and only ignored lines between
      them, and a pairing ends before the next one starts. Every such pair
      of lines is listed (`PairingsComplete`). */
  function Pairings(lines: seq<Line>, n: nat): (ps: seq<Pairing>)
    requires n <= |lines|
    ensures forall k | 0 <= k < |ps| :: PairedLines(lines, ps[k]) && ps[k].ref < n
    ensures forall k | 0 <= k < |ps| - 1 :: ps[k].ref < ps[k + 1].info
  {
    if n == 0 then []
    else
      var ps := Pairings(lines, n - 1);
      match OpenerOf(lines, n - 1)
      case None => ps
      case Some(i) =>
        var p := Pairing(i, n - 1);
        assert PairedLines(lines, p);
        assert ps != [] ==> ps[|ps| - 1].ref < i by {
          if ps != [] {
            var last := ps[|ps| - 1];
            assert PairedLines(lines, last) && last.ref < n - 1;
            assert last.ref != i;
          }
        }
        ps + [p]
  }

  /** Every `#EXTINF` line followed, after only ignored lines, by a URL line
      before `n` is one of the pairings. */
  lemma {:induction false} PairingsComplete(lines: seq<Line>, n: nat, p: Pairing)
    requires n <= |lines| && PairedLines(lines, p) && p.ref < n
    ensures p in Pairings(lines, n)
  {
    if p.ref == n - 1 {
      LastSignificantAt(lines, n - 1, p.info);
      assert OpenerOf(lines, n - 1) == Some(p.info);
    } else {
      PairingsComplete(lines, n - 1, p);
    }
  }

  /** The entry a pairing produces as the `k`-th entry. */
  function EntryFor(lines: seq<Line>, p: Pairing, k: nat): Meta
    requires PairedLines(lines, p)
  {
    var name := TitleFor(lines[p.info].field, k);
    Meta(IdOf(k), name, name, lines[p.ref].url)
  }

  /** The pending entry after `n` lines when `c` entries have been emitted. */
  function PendingAfter(lines: seq<Line>, n: nat, c: nat): Pending
    requires n <= |lines|
  {
    match LastSignificant(lines, n)
    case Some(i) =>
      if lines[i].Info? then
        var name := TitleFor(lines[i].field, c);
        Awaiting(IdOf(c), name, name)
      else Idle
    case None => Idle
  }

  /** `st` is the state the pairings of the first `n` lines call for: one
      entry per pairing, numbered from 1, the counter one past the last
      entry, and an entry pending exactly when the last significant line is
      an `#EXTINF` line. */
  predicate Describes(lines: seq<Line>, n: nat, st: ParserState)
    requires n <= |lines|
  {
    var ps := Pairings(lines, n);
    && |st.metas| == |ps|
    && st.idCounter == |ps| + 1
    && (forall k | 0 <= k < |ps| :: st.metas[k] == EntryFor(lines, ps[k], k + 1))
    && st.current == PendingAfter(lines, n, |ps| + 1)
  }

  /** One line more keeps `Describes`, for each kind of line. */
  lemma StepIgnored(lines: seq<Line>, n: nat)
    requires 0 < n <= |lines| && lines[n - 1].Ignored?
    requires Describes(lines, n - 1, Run(lines, n - 1))
    ensures Describes(lines, n, Run(lines, n))
  {
  }

  lemma StepInfo(lines: seq<Line>, n: nat)
    requires 0 < n <= |lines| && lines[n - 1].Info?
    requires Describes(lines, n - 1, Run(lines, n - 1))
    ensures Describes(lines, n, Run(lines, n))
  {
  }

  lemma StepUrl(lines: seq<Line>, n: nat)
    requires 0 < n <= |lines| && lines[n - 1].Url?
    requires Describes(lines, n - 1, Run(lines, n - 1))
    ensures Describes(lines, n, Run(lines, n))
  {
  }

  /** The parser state after any number of lines is the one its pairings
      call for. */
  lemma {:induction false} RunMatchesPairings(lines: seq<Line>, n: nat)
    requires n <= |lines|
    ensures Describes(lines, n, Run(lines, n))
  {
    if n > 0 {
      RunMatchesPairings(lines, n - 1);
      match lines[n - 1]
      case Ignored => StepIgnored(lines, n);
      case Info(_) => StepInfo(lines, n);
      case Url(_) => StepUrl(lines, n);
    }
  }

  /** The entries of a response body, one per pairing of its lines. */
  lemma ParseMatchesPairings(text: string)
    ensures var lines := LinesOf(text);
      var ps := Pairings(lines, |lines|);
      && |Parse(text)| == |ps|
      && forall k | 0 <= k < |ps| :: Parse(text)[k] == EntryFor(lines, ps[k], k + 1)
  {
    var lines := LinesOf(text);
    RunMatchesPairings(lines, |lines|);
  }

  /** Identifiers are `vod-1` … `vod-N` in source order, each entry's
      description equals its name, and its URL is a trimmed, non-empty line
      that does not start with `#`. */
  lemma ParsedEntries(text: string)
    ensures forall k | 0 <= k < |Parse(text)| ::
      && Parse(text)[k].id == IdOf(k + 1)
      && Parse(text)[k].description == Parse(text)[k].name
      && Parse(text)[k].url != ""
      && Trim(Parse(text)[k].url) == Parse(text)[k].url
      && !StartsWith(Parse(text)[k].url, "#")
  {
    var raws := SplitLines(text);
    var lines := LinesOf(text);
    var ps := Pairings(lines, |lines|);
    ParseMatchesPairings(text);
    forall k | 0 <= k < |Parse(text)|
      ensures var url := Parse(text)[k].url;
        url != "" && Trim(url) == url && !StartsWith(url, "#")
    {
      assert lines[ps[k].ref] == Classify(raws[ps[k].ref]);
    }
  }

  lemma IdOfInjective(m: nat, n: nat)
    requires m != n
    ensures IdOf(m) != IdOf(n)
  {
    NatToStringInjective(m, n);
    assert IdOf(m)[|IdPrefix|..] == NatToString(m);
    assert IdOf(n)[|IdPrefix|..] == NatToString(n);
  }

  /** No two parsed entries share an identifier. */
  lemma ParsedIdsDistinct(text: string)
    ensures forall j, k | 0 <= j < k < |Parse(text)| :: Parse(text)[j].id != Parse(text)[k].id
  {
    ParsedEntries(text);
    forall j, k | 0 <= j < k < |Parse(text)|
      ensures Parse(text)[j].id != Parse(text)[k].id
    {
      IdOfInjective(j + 1, k + 1);
    }
  }

  /** Number of `#EXTINF` lines among the first `n`. */
  function CountInfo(lines: seq<Line>, n: nat): nat
    requires n <= |lines|
  {
    if n == 0 then 0 else CountInfo(lines, n - 1) + (if lines[n - 1].Info? then 1 else 0)
  }

  /** Number of URL lines among the first `n`. */
  function CountUrl(lines: seq<Line>, n: nat): nat
    requires n <= |lines|
  {
    if n == 0 then 0 else CountUrl(lines, n - 1) + (if lines[n - 1].Url? then 1 else 0)
  }

  /** Every entry uses up one `#EXTINF` line (a pending one uses one more)
      and one URL line. */
  lemma {:induction false} RunBounds(lines: seq<Line>, n: nat)
    requires n <= |lines|
    ensures |Run(lines, n).metas| + (if Run(lines, n).current.Awaiting? then 1 else 0)
            <= CountInfo(lines, n)
    ensures |Run(lines, n).metas| <= CountUrl(lines, n)
  {
    if n > 0 {
      RunBounds(lines, n - 1);
    }
  }

  /** The number of entries is at most the number of `#EXTINF` lines and at
      most the number of URL lines. In particular a body without any
      `#EXTINF:` line, such as a bare list of URLs, yields no entries. */
  lemma ParseBounds(text: string)
    ensures var lines := LinesOf(text);
      && |Parse(text)| <= CountInfo(lines, |lines|)
      && |Parse(text)| <= CountUrl(lines, |lines|)
  {
    var lines := LinesOf(text);
    RunBounds(lines, |lines|);
  }

  /** A body of one line never yields an entry: neither a lone URL, which
      has no `#EXTINF` before it, nor a lone `#EXTINF`, which has no URL after
      it. */
  lemma SingleLineYieldsNothing(text: string)
    requires '\n' !in text
    ensures Parse(text) == []
  {
    SplitLinesWithoutLf(text);
    var lines := LinesOf(text);
    assert lines == [Classify(text)];
    assert Run(lines, 1) == Step(Start, lines[0]);
  }

  /** Which lines the loop ignores: exactly the lines that trim to nothing
      and the `#` lines other than `#EXTINF:`; in particular every line of
      only whitespace. */
  lemma IgnoredLines(raw: string)
    ensures Classify(raw).Ignored? <==>
      Trim(raw) == "" || (StartsWith(Trim(raw), "#") && !StartsWith(Trim(raw), ExtInfPrefix))
    ensures AllWhitespace(raw) ==> Classify(raw).Ignored?
  {
    TrimSpec(raw);
    var line := Trim(raw);
    if StartsWith(line, ExtInfPrefix) {
      assert line[..1] == ExtInfPrefix[..1];
    }
  }

  /** The `#EXTINF:` test is case-sensitive: `#extinf:` is a comment. */
  lemma LowerCaseExtInfIgnored()
    ensures Classify("#extinf:-1,Clip").Ignored?
  {
    var raw := "#extinf:-1,Clip";
    assert !IsWhitespace(raw[0]) && !IsWhitespace(raw[|raw| - 1]);
    assert Trim(raw) == raw;
    assert raw[1] != ExtInfPrefix[1];
  }

  /** An ignored line leaves the state as it is. */
  lemma IgnoredLineKeepsState(st: ParserState, raw: string)
    requires Trim(raw) == "" || (StartsWith(Trim(raw), "#") && !StartsWith(Trim(raw), ExtInfPrefix))
    ensures Step(st, Classify(raw)) == st
  {
  }

  /** An `#EXTINF` line emits nothing and consumes no identifier; a second
      one before any URL line replaces the pending entry, so the first is
      never emitted. */
  lemma ExtInfOnlyReplacesPending(st: ParserState, raw: string, raw': string)
    requires StartsWith(Trim(raw), ExtInfPrefix) && StartsWith(Trim(raw'), ExtInfPrefix)
    ensures var st1 := Step(st, Classify(raw));
      && st1.metas == st.metas && st1.idCounter == st.idCounter
      && st1.current.Awaiting? && st1.current.id == IdOf(st.idCounter)
      && Step(st1, Classify(raw')) == Step(st, Classify(raw'))
  {
  }

  /** A URL line emits the pending entry, with the trimmed line as its URL,
      exactly when one is pending, and leaves nothing pending. */
  lemma UrlClosesPending(st: ParserState, raw: string)
    requires Trim(raw) != "" && !StartsWith(Trim(raw), "#")
    ensures var st1 := Step(st, Classify(raw));
      && st1.current == Idle
      && |st1.metas| == |st.metas| + (if st.current.Awaiting? then 1 else 0)
      && st1.idCounter == st.idCounter + (if st.current.Awaiting? then 1 else 0)
      && (st.current.Awaiting? ==>
            st1.metas == st.metas + [Meta(st.current.id, st.current.name, st.current.description, Trim(raw))])
      && (st.current == Idle ==> st1 == st)
  {
  }

  /** A run of ignored lines changes nothing: the state after lines `n`
      through `m - 1`, all of them ignored, is the state after line
      `n - 1`. */
  lemma {:induction false} IgnoredSuffixKeepsState(lines: seq<Line>, n: nat, m: nat)
    requires n <= m <= |lines|
    requires forall i | n <= i < m :: lines[i].Ignored?
    ensures Run(lines, m) == Run(lines, n)
    decreases m
  {
    if m > n {
      IgnoredSuffixKeepsState(lines, n, m - 1);
      assert lines[m - 1].Ignored?;
    }
  }

  /** An `#EXTINF` line that no URL line follows is not emitted: a body
      ending in `#EXTINF` and ignored lines parses to the entries of the
      body before that `#EXTINF` line. */
  lemma {:induction false} UnterminatedExtInfDropped(lines: seq<Line>, n: nat)
    requires n < |lines| && lines[n].Info?
    requires forall i | n < i < |lines| :: lines[i].Ignored?
    ensures Run(lines, |lines|).metas == Run(lines, n).metas
    ensures Run(lines, |lines|).current.Awaiting?
  {
    IgnoredSuffixKeepsState(lines, n + 1, |lines|);
  }

  /** The title field is the text between the first and the second comma
      after `#EXTINF:` (or the end of the line); it is absent when there is
      no comma. */
  lemma TitleFieldBetweenCommas(line: string)
    requires StartsWith(line, ExtInfPrefix)
    ensures var body := line[|ExtInfPrefix|..];
      var first := IndexOf(body, ',');
      && (TitleField(line).None? <==> first == |body|)
      && (first < |body| ==>
            var rest := body[first + 1..];
            TitleField(line) == Some(rest[..IndexOf(rest, ',')]))
  {
    var body := line[|ExtInfPrefix|..];
    SplitAtFirst(body, ',');
    var first := IndexOf(body, ',');
    if first < |body| {
      SplitAtFirst(body[first + 1..], ',');
    }
  }

  /** The title rule: an absent or empty field gives `Video k`; otherwise
      the field trimmed, which is empty when the field is only whitespace. */
  lemma TitleRule(field: Option<string>, k: nat)
    ensures (field.None? || field.value == "") ==> TitleFor(field, k) == "Video " + NatToString(k)
    ensures field.Some? && field.value != "" ==> TitleFor(field, k) == Trim(field.value)
    ensures TitleFor(field, k) == "" <==> field.Some? && field.value != "" && AllWhitespace(field.value)
  {
    if field.Some? {
      TrimSpec(field.value);
    }
  }

  /** A whitespace-only title field between two commas is truthy, so it is
      trimmed to an empty name instead of falling back to `Video 1`. */
  lemma BlankTitleFieldGivesEmptyName()
    ensures TitleFor(TitleField("#EXTINF:0, ,x"), 1) == ""
  {
    TitleFieldBetweenCommas("#EXTINF:0, ,x");
    assert "#EXTINF:0, ,x"[|ExtInfPrefix|..] == "0, ,x";
    assert IndexOf("0, ,x", ',') == 1;
    assert IndexOf(" ,x", ',') == 1;
    TitleRule(Some(" "), 1);
  }

}
