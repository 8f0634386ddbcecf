/** Chain keys, the file names made of them, and free keys for imported chains. */
module ChainNames {
  import opened Wrappers

  /** What file names depend on: which characters count as letters or digits, and the key's fingerprint. */
  datatype Naming = Naming(alphanumeric: char -> bool, fingerprint: string -> string) {
    ghost predicate Valid() {
      && (forall c :: IsDigit(c) || 'a' <= c <= 'z' ==> alphanumeric(c))
      && forall key :: |fingerprint(key)| == 16 && AllHex(fingerprint(key))
    }

    function SafeChar(c: char): char {
      if alphanumeric(c) || c == '-' || c == '_' then c else '_'
    }

    /** The key as file names hold it. */
    function Safe(key: string): (safe: string)
      ensures |safe| == |key|
    {
      seq(|key|, k requires 0 <= k < |key| => SafeChar(key[k]))
    }

    function FileName(key: string): string {
      Safe(key) + "-" + fingerprint(key) + ".tcbin"
    }
  }

  predicate IsDigit(c: char) {
    '0' <= c <= '9'
  }

  predicate IsHex(c: char) {
    IsDigit(c) || 'a' <= c <= 'f' || 'A' <= c <= 'F'
  }

  predicate AllHex(s: string) {
    forall k :: 0 <= k < |s| ==> IsHex(s[k])
  }

  /** Split at the last `c`, leaving it out. */
  function SplitAtLast(s: string, c: char): Option<(string, string)> {
    if s == [] then None
    else if s[|s| - 1] == c then Some((s[..|s| - 1], []))
    else
      match SplitAtLast(s[..|s| - 1], c)
      case None => None
      case Some(parts) => Some((parts.0, parts.1 + [s[|s| - 1]]))
  }

  /** The key a chain's file name tells, if it is one. */
  function KeyOfFile(name: string): Option<string> {
    match SplitAtLast(name, '.')
    case None => None
    case Some(file) =>
      if file.1 != "tcbin" && file.1 != "jsonl" then None
      else
        match SplitAtLast(file.0, '-')
        case None => None
        case Some(parts) => if |parts.1| != 16 || !AllHex(parts.1) then None else Some(parts.0)
  }

  lemma {:induction false} SplitBack(a: string, c: char, b: string)
    requires c !in b
    ensures SplitAtLast(a + [c] + b, c) == Some((a, b))
  {
    var s := a + [c] + b;
    if b == [] {
      assert s == a + [c];
    } else {
      var front := b[..|b| - 1];
      SplitBack(a, c, front);
      assert s[..|s| - 1] == a + [c] + front && s[|s| - 1] == b[|b| - 1];
      assert b == front + [b[|b| - 1]];
    }
  }

  /** A chain's file name tells its key as file names hold it. */
  lemma FileTellsKey(naming: Naming, key: string)
    requires naming.Valid()
    ensures KeyOfFile(naming.FileName(key)) == Some(naming.Safe(key))
  {
    hide SplitAtLast;
    var mark, safe := naming.fingerprint(key), naming.Safe(key);
    SplitBack(safe + "-" + mark, '.', "tcbin");
    assert safe + "-" + mark + ['.'] + "tcbin" == naming.FileName(key);
    assert '-' !in mark by {
      assert !IsHex('-');
    }
    SplitBack(safe, '-', mark);
  }

  lemma {:induction false} SplitIs(s: string, c: char, a: string, b: string)
    ensures SplitAtLast(s, c) == Some((a, b)) <==> s == a + [c] + b && c !in b
  {
    if s == a + [c] + b && c !in b {
      SplitBack(a, c, b);
    }
    if s != [] {
      var front, last := s[..|s| - 1], s[|s| - 1];
      assert s == front + [last];
      if SplitAtLast(front, c).Some? {
        var parts := SplitAtLast(front, c).value;
        SplitIs(front, c, parts.0, parts.1);
        assert s == parts.0 + [c] + (parts.1 + [last]);
      }
    }
  }

  /** The fingerprint of a file name: 16 hexadecimal digits, in either case. */
  ghost predicate IsMark(mark: string) {
    |mark| == 16 && forall k :: 0 <= k < |mark| ==> mark[k] in "0123456789abcdefABCDEF"
  }

  /** Exactly the names made of a key, a dash, a fingerprint of 16 hexadecimal digits and one of the two chain
      file extensions tell a key. */
  lemma KeyOfFileIff(name: string, key: string)
    ensures KeyOfFile(name) == Some(key) <==>
            exists mark, extension :: IsMark(mark) && (extension == "tcbin" || extension == "jsonl") &&
                                      name == key + ['-'] + mark + ['.'] + extension
  {
    hide SplitAtLast;
    if KeyOfFile(name) == Some(key) {
      var file := SplitAtLast(name, '.').value;
      SplitIs(name, '.', file.0, file.1);
      var parts := SplitAtLast(file.0, '-').value;
      SplitIs(file.0, '-', parts.0, parts.1);
      assert IsMark(parts.1);
    }
    if mark, extension :| IsMark(mark) && (extension == "tcbin" || extension == "jsonl") &&
                          name == key + ['-'] + mark + ['.'] + extension {
      SplitIs(name, '.', key + ['-'] + mark, extension);
      assert '-' !in mark by {
        assert !IsHex('-');
      }
      SplitIs(key + ['-'] + mark, '-', key, mark);
    }
  }

  /** File names hold letters, digits, dashes, underscores and one dot; of the key all but the first four are held as
      underscores. */
  lemma FileNameIsPlain(naming: Naming, key: string, c: char)
    requires naming.Valid()
    ensures c in naming.FileName(key) ==> naming.alphanumeric(c) || c == '-' || c == '_' || c == '.' || IsHex(c)
    ensures '.' in naming.Safe(key) ==> naming.alphanumeric('.')
    ensures forall k :: 0 <= k < |key| ==>
              naming.Safe(key)[k] == if naming.alphanumeric(key[k]) || key[k] in "-_" then key[k] else '_'
  {
    var safe := naming.Safe(key);
    if c in naming.FileName(key) {
      assert c in safe || c == '-' || c in naming.fingerprint(key) || c in ".tcbin";
    }
  }

  // ----- Decimal numbers

  function Digit(d: nat): char
    requires d < 10
  {
    '0' + d as char
  }

  function Decimal(n: nat): (s: string)
    ensures forall k :: 0 <= k < |s| ==> IsDigit(s[k])
  {
    if n < 10 then [Digit(n)] else Decimal(n / 10) + [Digit(n % 10)]
  }

  function ValueOfDigit(c: char): nat
    requires IsDigit(c)
  {
    c as nat - '0' as nat
  }

  function ValueOf(s: string): nat
    requires forall k :: 0 <= k < |s| ==> IsDigit(s[k])
  {
    if s == [] then 0 else 10 * ValueOf(s[..|s| - 1]) + ValueOfDigit(s[|s| - 1])
  }

  lemma {:induction false} DecimalTellsValue(n: nat)
    ensures ValueOf(Decimal(n)) == n
  {
    if n < 10 {
      assert [Digit(n)][..0] == [];
    } else {
      DecimalTellsValue(n / 10);
      var front := Decimal(n / 10);
      assert Decimal(n)[..|front|] == front;
    }
  }

  // ----- Candidate keys

  function Candidate(base: string, i: nat): string {
    if i == 0 then base + "-imported" else base + "-imported-" + Decimal(i + 1)
  }

  function CandidateEnd(i: nat): string {
    if i == 0 then "-imported" else "-imported-" + Decimal(i + 1)
  }

  lemma CandidateEnds(naming: Naming, base: string, i: nat)
    requires naming.Valid()
    ensures Candidate(base, i) == base + CandidateEnd(i)
    ensures naming.Safe(Candidate(base, i)) == naming.Safe(base) + CandidateEnd(i)
  {
    assert Candidate(base, i) == base + CandidateEnd(i);
    EndIsPlain(i);
    hide CandidateEnd, Decimal, Candidate;
    assert naming.Safe(base + CandidateEnd(i)) == naming.Safe(base) + naming.Safe(CandidateEnd(i));
    assert naming.Safe(CandidateEnd(i)) == CandidateEnd(i);
  }

  lemma EndIsPlain(i: nat)
    ensures forall k :: 0 <= k < |CandidateEnd(i)| ==>
              CandidateEnd(i)[k] == '-' || IsDigit(CandidateEnd(i)[k]) || 'a' <= CandidateEnd(i)[k] <= 'z'
  {
    var end := "-imported-";
    assert forall k :: 0 <= k < |end| ==> end[k] == '-' || 'a' <= end[k] <= 'z';
    hide Decimal;
  }

  lemma EndsDiffer(i: nat, j: nat)
    requires i != j
    ensures CandidateEnd(i) != CandidateEnd(j)
  {
    DecimalTellsValue(i + 1);
    DecimalTellsValue(j + 1);
    AfterPrefix("-imported-", Decimal(i + 1));
    AfterPrefix("-imported-", Decimal(j + 1));
  }

  lemma AfterPrefix(a: string, b: string)
    ensures (a + b)[|a|..] == b
  {
  }

  /** Different candidates are different keys with different file names. */
  lemma CandidatesDiffer(naming: Naming, base: string, i: nat, j: nat)
    requires naming.Valid() && i != j
    ensures Candidate(base, i) != Candidate(base, j)
    ensures naming.FileName(Candidate(base, i)) != naming.FileName(Candidate(base, j))
  {
    hide Candidate, CandidateEnd;
    EndsDiffer(i, j);
    CandidateEnds(naming, base, i);
    CandidateEnds(naming, base, j);
    FileTellsKey(naming, Candidate(base, i));
    FileTellsKey(naming, Candidate(base, j));
    AfterPrefix(base, CandidateEnd(i));
    AfterPrefix(base, CandidateEnd(j));
    AfterPrefix(naming.Safe(base), CandidateEnd(i));
    AfterPrefix(naming.Safe(base), CandidateEnd(j));
  }

  // ----- The next free key

  /** What is taken: keys in use, and files on disk. */
  datatype Taken = Taken(naming: Naming, keys: set<string>, files: set<string>) {
    predicate Has(key: string) {
      key in keys || naming.FileName(key) in files
    }
  }

  /** Every taken candidate takes a key or a file of its own. */
  lemma {:induction false} TakenBound(taken: Taken, base: string, n: nat)
    requires taken.naming.Valid() && forall i :: 0 <= i < n ==> taken.Has(Candidate(base, i))
    ensures n <= |taken.keys| + |taken.files|
    decreases n
  {
    if n > 0 {
      var last := Candidate(base, n - 1);
      var rest := taken.(keys := taken.keys - {last}, files := taken.files - {taken.naming.FileName(last)});
      forall i | 0 <= i < n - 1
        ensures rest.Has(Candidate(base, i))
      {
        assert taken.Has(Candidate(base, i));
        CandidatesDiffer(taken.naming, base, i, n - 1);
      }
      TakenBound(rest, base, n - 1);
      assert taken.Has(last);
      assert last in taken.keys ==> |rest.keys| == |taken.keys| - 1;
      assert taken.naming.FileName(last) in taken.files ==> |rest.files| == |taken.files| - 1;
      assert last !in taken.keys ==> rest.keys == taken.keys;
      assert taken.naming.FileName(last) !in taken.files ==> rest.files == taken.files;
    }
  }

  /** The first free candidate at or after `n`. */
  function FirstFree(taken: Taken, base: string, n: nat): (free: nat)
    requires taken.naming.Valid() && forall i :: 0 <= i < n ==> taken.Has(Candidate(base, i))
    ensures n <= free <= |taken.keys| + |taken.files| && !taken.Has(Candidate(base, free))
    ensures forall i :: 0 <= i < free ==> taken.Has(Candidate(base, i))
    decreases |taken.keys| + |taken.files| + 1 - n
  {
    TakenBound(taken, base, n);
    if taken.Has(Candidate(base, n)) then
      TakenBound(taken, base, n + 1);
      FirstFree(taken, base, n + 1)
    else n
  }

  function NextKey(taken: Taken, base: string): string
    requires taken.naming.Valid()
  {
    Candidate(base, FirstFree(taken, base, 0))
  }

  /** The base with `-imported`, and from the second on with a number as well. */
  ghost predicate IsCandidate(key: string, base: string, i: nat) {
    key == (base + "-imported") + if i == 0 then "" else "-" + Decimal(i + 1)
  }

  method NextImportKey(taken: Taken, base: string) returns (candidate: string)
    requires taken.naming.Valid()
    ensures candidate == NextKey(taken, base) && candidate !in taken.keys &&
            taken.naming.FileName(candidate) !in taken.files
    ensures exists i: nat :: i <= |taken.keys| + |taken.files| && IsCandidate(candidate, base, i)
                             && forall j :: 0 <= j < i ==> taken.Has(Candidate(base, j))
  {
    candidate := base + "-imported";
    var counter: nat := 2;
    ghost var i: nat := 0;
    ghost var free := FirstFree(taken, base, 0);
    while candidate in taken.keys || taken.naming.FileName(candidate) in taken.files
      invariant candidate == Candidate(base, i) && counter == i + 2
      invariant i <= free
      decreases free - i
    {
      assert i != free;
      candidate := base + "-imported-" + Decimal(counter);
      counter := counter + 1;
      i := i + 1;
    }
    assert i == free;
    assert IsCandidate(candidate, base, i);
  }
}
