/** Unicode white space and control characters, and trimming. */
module Text {

  predicate IsSpace(c: char) {
    || '\U{9}' <= c <= '\U{D}' || c == ' ' || c == '\U{85}' || c == '\U{A0}' || c == '\U{1680}'
    || '\U{2000}' <= c <= '\U{200A}' || c == '\U{2028}' || c == '\U{2029}' || c == '\U{202F}'
    || c == '\U{205F}' || c == '\U{3000}'
  }

  predicate IsControl(c: char) {
    c <= '\U{1F}' || '\U{7F}' <= c <= '\U{9F}'
  }

  function TrimStart(s: string): string {
    if s != [] && IsSpace(s[0]) then TrimStart(s[1..]) else s
  }

  function TrimEnd(s: string): string {
    if s != [] && IsSpace(s[|s| - 1]) then TrimEnd(s[..|s| - 1]) else s
  }

  function Trim(s: string): string {
    TrimEnd(TrimStart(s))
  }

  /** The characters of the Unicode White_Space property. */
  const BLANKS := "\U{9}\U{A}\U{B}\U{C}\U{D} \U{85}\U{A0}\U{1680}\U{2000}\U{2001}\U{2002}\U{2003}\U{2004}" +
                  "\U{2005}\U{2006}\U{2007}\U{2008}\U{2009}\U{200A}\U{2028}\U{2029}\U{202F}\U{205F}\U{3000}"

  lemma BlanksAre(c: char)
    ensures c in BLANKS <==> IsSpace(c)
  {
  }

  lemma {:induction false} TrimStartIs(s: string) returns (blank: string)
    ensures s == blank + TrimStart(s) && (forall c :: c in blank ==> IsSpace(c))
    ensures TrimStart(s) != "" ==> !IsSpace(TrimStart(s)[0])
  {
    blank := "";
    if s != [] && IsSpace(s[0]) {
      blank := TrimStartIs(s[1..]);
      blank := [s[0]] + blank;
    }
  }

  lemma {:induction false} TrimEndIs(s: string) returns (blank: string)
    ensures s == TrimEnd(s) + blank && (forall c :: c in blank ==> IsSpace(c))
    ensures TrimEnd(s) != "" ==> TrimEnd(s)[0] == s[0] && !IsSpace(TrimEnd(s)[|TrimEnd(s)| - 1])
  {
    blank := "";
    if s != [] && IsSpace(s[|s| - 1]) {
      blank := TrimEndIs(s[..|s| - 1]);
      blank := blank + [s[|s| - 1]];
    }
  }

  /** Trimming takes white space off both ends, all of it and nothing else. */
  lemma TrimIs(s: string) returns (front: string, back: string)
    ensures s == front + Trim(s) + back && (forall c :: c in front + back ==> c in BLANKS)
    ensures Trim(s) != "" ==> Trim(s)[0] !in BLANKS && Trim(s)[|Trim(s)| - 1] !in BLANKS
  {
    front := TrimStartIs(s);
    back := TrimEndIs(TrimStart(s));
    forall c {
      BlanksAre(c);
    }
    hide IsSpace, TrimStart, TrimEnd;
    assert s == front + (TrimEnd(TrimStart(s)) + back);
  }
}
