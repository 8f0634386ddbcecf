/** Rendering stored text into one line of a prompt that it cannot forge. */
module PromptText {
  import opened Text

  const LINE_BREAK_MARK: char := '\U{23CE}'
  const REPLACEMENT_MARK: char := '\U{FFFD}'
  const ELLIPSIS: char := '\U{2026}'
  const MAX_LABEL_CHARS: nat := 80

  predicate IsLineBreak(c: char) {
    c == '\n' || c == '\r' || c == '\U{85}' || c == '\U{2028}' || c == '\U{2029}'
  }

  predicate IsHiddenFormat(c: char) {
    || c == '\U{200B}' || c == '\U{200E}' || c == '\U{200F}'
    || '\U{202A}' <= c <= '\U{202E}' || '\U{2060}' <= c <= '\U{2064}' || '\U{2066}' <= c <= '\U{2069}'
    || c == '\U{FEFF}' || '\U{E0000}' <= c <= '\U{E007F}'
  }

  // ----- One line

  function FlatChar(c: char): char {
    if IsLineBreak(c) then LINE_BREAK_MARK
    else if c == '\t' then ' '
    else if IsControl(c) || IsHiddenFormat(c) then REPLACEMENT_MARK
    else c
  }

  /** Every line break becomes one mark, a carriage return with its line feed being one break. */
  function Flat(text: string): string {
    if text == [] then []
    else if text[0] == '\r' && |text| > 1 && text[1] == '\n' then [LINE_BREAK_MARK] + Flat(text[2..])
    else [FlatChar(text[0])] + Flat(text[1..])
  }

  // ----- No markers

  /** `run` counts the `=` just written, up to two; `previous` is the last character. */
  function DefangFrom(text: string, run: nat, previous: char): string {
    if text == [] then []
    else
      var c := text[0];
      if c == '=' then
        if run + 1 == 3 then [' ', c] + DefangFrom(text[1..], 1, c)
        else [c] + DefangFrom(text[1..], run + 1, c)
      else (if previous == '[' && c == '#' then [' ', c] else [c]) + DefangFrom(text[1..], 0, c)
  }

  function Defang(text: string): string {
    DefangFrom(text, 0, '\U{0}')
  }

  method DefangMarkers(text: string) returns (out: string)
    ensures out == Defang(text)
  {
    hide DefangFrom;
    out := [];
    var run: nat := 0;
    var previous := '\U{0}';
    assert text[0..] == text;
    for k := 0 to |text|
      invariant out + DefangFrom(text[k..], run, previous) == Defang(text)
    {
      var c := text[k];
      ghost var before := out;
      DefangStep(text, k, run, previous);
      if c == '=' {
        run := run + 1;
        if run == 3 {
          out := out + [' '];
          run := 1;
        }
      } else {
        run := 0;
        if previous == '[' && c == '#' {
          out := out + [' '];
        }
      }
      out := out + [c];
      previous := c;
      Regroup(before, out[|before|..], DefangFrom(text[k + 1..], run, previous));
    }
    DefangEnd(text, run, previous);
  }

  lemma DefangStep(text: string, k: nat, run: nat, previous: char)
    requires k < |text|
    ensures var c, rest := text[k], text[k + 1..];
            DefangFrom(text[k..], run, previous) ==
            if c == '=' then
              if run + 1 == 3 then [' ', c] + DefangFrom(rest, 1, c) else [c] + DefangFrom(rest, run + 1, c)
            else (if previous == '[' && c == '#' then [' ', c] else [c]) + DefangFrom(rest, 0, c)
  {
    assert text[k..][0] == text[k] && text[k..][1..] == text[k + 1..];
  }

  lemma DefangEnd(text: string, run: nat, previous: char)
    ensures DefangFrom(text[|text|..], run, previous) == []
  {
  }

  lemma Regroup(a: string, b: string, c: string)
    ensures a + (b + c) == a + b + c
  {
  }

  function Inline(text: string): string {
    Defang(Flat(text))
  }

  method InlineText(text: string) returns (line: string)
    ensures line == Inline(text)
  {
    hide Flat, IsLineBreak, IsControl, IsHiddenFormat;
    var flat: string := [];
    var k: nat := 0;
    assert text[0..] == text;
    while k < |text|
      invariant k <= |text| && flat + Flat(text[k..]) == Flat(text)
    {
      var c := text[k];
      ghost var before := flat;
      FlatStep(text, k);
      k := k + 1;
      if c == '\r' && k < |text| && text[k] == '\n' {
        k := k + 1;
        flat := flat + [LINE_BREAK_MARK];
      } else if IsLineBreak(c) {
        flat := flat + [LINE_BREAK_MARK];
      } else if c == '\t' {
        flat := flat + [' '];
      } else if IsControl(c) || IsHiddenFormat(c) {
        flat := flat + [REPLACEMENT_MARK];
      } else {
        flat := flat + [c];
      }
      Regroup(before, flat[|before|..], Flat(text[k..]));
    }
    assert k == |text|;
    FlatEnd(text);
    assert flat + [] == flat;
    line := DefangMarkers(flat);
  }

  lemma FlatStep(text: string, k: nat)
    requires k < |text|
    ensures Flat(text[k..]) ==
            if text[k] == '\r' && k + 1 < |text| && text[k + 1] == '\n' then [LINE_BREAK_MARK] + Flat(text[k + 2..])
            else [FlatChar(text[k])] + Flat(text[k + 1..])
  {
    var rest := text[k..];
    assert rest[0] == text[k] && rest[1..] == text[k + 1..];
    if k + 1 < |text| {
      assert rest[1] == text[k + 1] && rest[2..] == text[k + 2..];
    }
  }

  lemma FlatEnd(text: string)
    ensures Flat(text[|text|..]) == []
  {
  }

  function Label(text: string): string {
    var flat := Inline(text);
    if |flat| <= MAX_LABEL_CHARS then flat else flat[..MAX_LABEL_CHARS] + [ELLIPSIS]
  }

  method InlineLabel(text: string) returns (shown: string)
    ensures shown == Label(text)
  {
    shown := InlineText(text);
    if |shown| > MAX_LABEL_CHARS {
      shown := shown[..MAX_LABEL_CHARS] + [ELLIPSIS];
    }
  }

  // ----- What no rendered text contains

  predicate Plain(c: char) {
    !IsLineBreak(c) && !IsControl(c) && !IsHiddenFormat(c)
  }

  predicate AllPlain(text: string) {
    forall k :: 0 <= k < |text| ==> Plain(text[k])
  }

  predicate MarkerAt(text: string, k: nat) {
    || (k + 2 < |text| && text[k] == '=' && text[k + 1] == '=' && text[k + 2] == '=')
    || (k + 1 < |text| && text[k] == '[' && text[k + 1] == '#')
  }

  /** Neither `===` nor `[#` occurs. */
  predicate NoMarkers(text: string) {
    forall k :: 0 <= k < |text| ==> !MarkerAt(text, k)
  }

  predicate Clean(text: string) {
    AllPlain(text) && NoMarkers(text)
  }

  lemma {:induction false} FlatIsPlain(text: string)
    ensures AllPlain(Flat(text))
    decreases |text|
  {
    if text != [] {
      if text[0] == '\r' && |text| > 1 && text[1] == '\n' {
        FlatIsPlain(text[2..]);
      } else {
        FlatIsPlain(text[1..]);
      }
    }
  }

  lemma {:induction false} PlainIsFlat(text: string)
    requires AllPlain(text)
    ensures Flat(text) == text
  {
    if text != [] {
      assert Plain(text[0]);
      PlainIsFlat(text[1..]);
      assert text == [text[0]] + text[1..];
    }
  }

  /** A character may go in front when it starts no marker there. */
  lemma NoMarkersWith(c: char, text: string)
    requires NoMarkers(text) && !MarkerAt([c] + text, 0)
    ensures NoMarkers([c] + text)
  {
    var all := [c] + text;
    forall k | 0 <= k < |all|
      ensures !MarkerAt(all, k)
    {
      if k > 0 {
        assert !MarkerAt(text, k - 1);
        assert all[k] == text[k - 1];
      }
    }
  }

  lemma NoMarkersTail(text: string)
    requires text != [] && NoMarkers(text)
    ensures NoMarkers(text[1..])
  {
    forall k | 0 <= k < |text| - 1
      ensures !MarkerAt(text[1..], k)
    {
      assert !MarkerAt(text, k + 1);
    }
  }

  /** What was just written, as far as it can start a marker. */
  function Tail(run: nat, previous: char): string {
    if run == 2 then "==" else if run == 1 then "=" else [previous]
  }

  lemma {:induction false} DefangedHasNoMarkers(text: string, run: nat, previous: char)
    requires run <= 2 && (run == 0 <==> previous != '=')
    ensures NoMarkers(Tail(run, previous) + DefangFrom(text, run, previous))
    decreases |text|
  {
    var tail, out := Tail(run, previous), DefangFrom(text, run, previous);
    if text != [] {
      var c := text[0];
      if c == '=' && run == 2 {
        DefangedHasNoMarkers(text[1..], 1, c);
        var rest := "=" + DefangFrom(text[1..], 1, c);
        NoMarkersWith(' ', rest);
        NoMarkersWith('=', [' '] + rest);
        NoMarkersWith('=', ['='] + ([' '] + rest));
        assert tail + out == ['='] + (['='] + ([' '] + rest));
      } else if c == '=' {
        DefangedHasNoMarkers(text[1..], run + 1, c);
        var rest := DefangFrom(text[1..], run + 1, c);
        if run == 1 {
          assert tail + out == "==" + rest;
        } else {
          NoMarkersWith(previous, "=" + rest);
          assert tail + out == [previous] + ("=" + rest);
        }
      } else {
        DefangedHasNoMarkers(text[1..], 0, c);
        Written(text, run, previous);
      }
    }
  }

  /** Writing a character other than `=` after what was just written. */
  lemma Written(text: string, run: nat, previous: char)
    requires text != [] && text[0] != '=' && run <= 2 && (run == 0 <==> previous != '=')
    requires NoMarkers([text[0]] + DefangFrom(text[1..], 0, text[0]))
    ensures NoMarkers(Tail(run, previous) + DefangFrom(text, run, previous))
  {
    var c, rest := text[0], [text[0]] + DefangFrom(text[1..], 0, text[0]);
    if previous == '[' && c == '#' {
      NoMarkersWith(' ', rest);
      rest := [' '] + rest;
    }
    assert DefangFrom(text, run, previous) == rest;
    if run == 0 {
      NoMarkersWith(previous, rest);
    } else {
      NoMarkersWith('=', rest);
      if run == 2 {
        NoMarkersWith('=', ['='] + rest);
        assert "==" + rest == ['='] + (['='] + rest);
      }
    }
  }

  lemma {:induction false} NothingToDefang(text: string, run: nat, previous: char)
    requires run <= 2 && (run == 0 <==> previous != '=') && NoMarkers(Tail(run, previous) + text)
    ensures DefangFrom(text, run, previous) == text
    decreases |text|
  {
    if text != [] {
      var c, all := text[0], Tail(run, previous) + text;
      assert !MarkerAt(all, 0);
      assert text == [c] + text[1..];
      NoMarkersTail(all);
      if c == '=' {
        assert run < 2;
        assert run == 1 ==> all == "==" + text[1..];
        assert run == 0 ==> all[1..] == "=" + text[1..];
        NothingToDefang(text[1..], run + 1, c);
      } else {
        if run == 2 {
          NoMarkersTail(all[1..]);
        }
        assert all[|Tail(run, previous)|..] == [c] + text[1..];
        NothingToDefang(text[1..], 0, c);
      }
    }
  }

  lemma {:induction false} DefangKeepsPlain(text: string, run: nat, previous: char)
    requires AllPlain(text)
    ensures AllPlain(DefangFrom(text, run, previous))
    decreases |text|
  {
    if text != [] {
      var c := text[0];
      assert Plain(c) && Plain(' ');
      DefangKeepsPlain(text[1..], if c != '=' then 0 else if run + 1 == 3 then 1 else run + 1, c);
    }
  }

  /** The rendered text is one clean line; exactly the clean texts are rendered as they are. */
  lemma InlineIsClean(text: string)
    ensures Clean(Inline(text))
    ensures Inline(text) == text <==> Clean(text)
    ensures Inline(Inline(text)) == Inline(text)
  {
    InlineGivesClean(text);
    CleanStays(Inline(text));
    if Clean(text) {
      CleanStays(text);
    }
  }

  lemma InlineGivesClean(text: string)
    ensures Clean(Inline(text))
  {
    FlatIsPlain(text);
    DefangKeepsPlain(Flat(text), 0, '\U{0}');
    DefangedHasNoMarkers(Flat(text), 0, '\U{0}');
    var all := ['\U{0}'] + Inline(text);
    NoMarkersTail(all);
    assert all[1..] == Inline(text);
  }

  lemma CleanStays(text: string)
    requires Clean(text)
    ensures Inline(text) == text
  {
    PlainIsFlat(text);
    NoMarkersWith('\U{0}', text);
    NothingToDefang(text, 0, '\U{0}');
  }

  // ----- Nothing is dropped

  function WithoutSpaces(text: string): string {
    if text == [] then [] else (if text[0] == ' ' then [] else [text[0]]) + WithoutSpaces(text[1..])
  }

  /** Breaking up markers only adds spaces. */
  lemma {:induction false} DefangAddsSpaces(text: string, run: nat, previous: char)
    ensures WithoutSpaces(DefangFrom(text, run, previous)) == WithoutSpaces(text)
    decreases |text|
  {
    if text != [] {
      var c := text[0];
      var rest := DefangFrom(text[1..], if c != '=' then 0 else if run + 1 == 3 then 1 else run + 1, c);
      DefangAddsSpaces(text[1..], if c != '=' then 0 else if run + 1 == 3 then 1 else run + 1, c);
      assert [' ', c] + rest == [' '] + ([c] + rest);
    }
  }

  /** The text with every carriage return and line feed pair as one line feed. */
  function OneBreak(text: string): string {
    if text == [] then []
    else if text[0] == '\r' && |text| > 1 && text[1] == '\n' then ['\n'] + OneBreak(text[2..])
    else [text[0]] + OneBreak(text[1..])
  }

  /** How one character shows: a break as U+23CE, a tab as a space, any other control character and every
      character that hides or reorders text as U+FFFD, and the rest as itself. */
  ghost predicate ShownAs(c: char, shown: char) {
    if c in "\n\r\U{85}\U{2028}\U{2029}" then shown == '\U{23CE}'
    else if c == '\t' then shown == ' '
    else if c < ' ' || '\U{7E}' < c < '\U{A0}' || c in "\U{200B}\U{200E}\U{200F}\U{FEFF}" ||
            '\U{202A}' <= c <= '\U{202E}' || ('\U{2060}' <= c <= '\U{2069}' && c != '\U{2065}') ||
            '\U{E0000}' <= c <= '\U{E007F}' then shown == '\U{FFFD}'
    else shown == c
  }

  lemma FlatCharShows(c: char)
    ensures ShownAs(c, FlatChar(c))
  {
  }

  /** Up to spaces, a text is rendered character by character, breaks and hidden characters as their
      marks; only the second half of a paired break goes. */
  lemma InlineDropsNothing(text: string)
    ensures WithoutSpaces(Inline(text)) == WithoutSpaces(Flat(text))
    ensures var broken := OneBreak(text);
            |Flat(text)| == |broken| && forall k :: 0 <= k < |broken| ==> ShownAs(broken[k], Flat(text)[k])
  {
    DefangAddsSpaces(Flat(text), 0, '\U{0}');
    FlatIsPointwise(text);
    hide ShownAs, FlatChar, Flat, OneBreak;
    var broken := OneBreak(text);
    forall k | 0 <= k < |broken|
      ensures ShownAs(broken[k], Flat(text)[k])
    {
      FlatCharShows(broken[k]);
    }
  }

  lemma {:induction false} FlatIsPointwise(text: string)
    ensures var broken := OneBreak(text);
            |Flat(text)| == |broken| && forall k :: 0 <= k < |broken| ==> Flat(text)[k] == FlatChar(broken[k])
    decreases |text|
  {
    if text != [] {
      if text[0] == '\r' && |text| > 1 && text[1] == '\n' {
        FlatIsPointwise(text[2..]);
      } else {
        FlatIsPointwise(text[1..]);
      }
    }
  }

  // ----- Labels

  lemma CleanFront(text: string, n: nat)
    requires Clean(text) && n <= |text|
    ensures Clean(text[..n] + [ELLIPSIS])
  {
    var cut := text[..n] + [ELLIPSIS];
    forall k | 0 <= k < |cut|
      ensures !MarkerAt(cut, k)
    {
      if k < n {
        assert !MarkerAt(text, k);
      }
    }
  }

  /** A label is one clean line of at most 81 characters, and rendering it again changes nothing. */
  lemma LabelIsClean(text: string)
    ensures Clean(Label(text)) && |Label(text)| <= 81
    ensures |Inline(text)| > 80 ==> Label(text)[..80] == Inline(text)[..80] && Label(text)[80] == '\U{2026}'
    ensures |Inline(text)| <= 80 ==> Label(text) == Inline(text)
    ensures Label(Label(text)) == Label(text)
    ensures Label(text) == text <==> Clean(text) && (|text| <= 80 || (|text| == 81 && text[80] == '\U{2026}'))
  {
    InlineIsClean(text);
    var flat, shown := Inline(text), Label(text);
    if |flat| > MAX_LABEL_CHARS {
      CleanFront(flat, MAX_LABEL_CHARS);
    }
    InlineIsClean(shown);
    assert shown[..|shown|] == shown;
  }
}
