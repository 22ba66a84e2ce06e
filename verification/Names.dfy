/** Options, bytes, and the way names of tags and folders are cut to size and compared. */
module Wrappers {
  datatype Option<+T> = None | Some(value: T)
}

module Names {
  newtype byte = x: int | 0 <= x < 256

  /** A Go string: a sequence of bytes. */
  type Text = seq<byte>

  /** The bytes of a string of ASCII characters. */
  function Ascii(s: string): (t: Text)
    requires forall i :: 0 <= i < |s| ==> s[i] < 128 as char
    ensures |t| == |s| && forall i :: 0 <= i < |s| ==> t[i] as int == s[i] as int
  {
    seq(|s|, i requires 0 <= i < |s| => s[i] as byte)
  }

  const TAG_BYTES := 32
  const FOLDER_BYTES := 64

  /** A space or a tab. */
  predicate Blank(b: byte) {
    b == 32 || b == 9
  }

  /** Nothing to trim. */
  predicate Trim(s: Text) {
    s == [] || (!Blank(s[0]) && !Blank(s[|s| - 1]))
  }

  ghost predicate AllBlank(s: Text) {
    forall b :: b in s ==> Blank(b)
  }

  function TrimmedLeft(s: Text): Text {
    if s != [] && Blank(s[0]) then TrimmedLeft(s[1..]) else s
  }

  function TrimmedRight(s: Text): Text {
    if s != [] && Blank(s[|s| - 1]) then TrimmedRight(s[..|s| - 1]) else s
  }

  function Trimmed(s: Text): Text {
    TrimmedRight(TrimmedLeft(s))
  }

  /** `trimSpaceBytes`: two loops that drop blanks, first at the front, then at the back. */
  method TrimSpaceBytes(text: Text) returns (s: Text)
    ensures s == Trimmed(text)
  {
    s := text;
    while |s| > 0 && Blank(s[0])
      invariant TrimmedLeft(s) == TrimmedLeft(text)
    {
      s := s[1..];
    }
    while |s| > 0 && Blank(s[|s| - 1])
      invariant TrimmedRight(s) == Trimmed(text)
    {
      s := s[..|s| - 1];
    }
  }

  lemma {:induction false} TrimmedLeftIs(s: Text) returns (a: Text)
    ensures s == a + TrimmedLeft(s) && AllBlank(a)
    ensures TrimmedLeft(s) == [] || !Blank(TrimmedLeft(s)[0])
  {
    if s != [] && Blank(s[0]) {
      a := TrimmedLeftIs(s[1..]);
      a := [s[0]] + a;
    } else {
      a := [];
    }
  }

  lemma {:induction false} TrimmedRightIs(s: Text) returns (b: Text)
    ensures s == TrimmedRight(s) + b && AllBlank(b)
    ensures TrimmedRight(s) == [] || !Blank(TrimmedRight(s)[|TrimmedRight(s)| - 1])
  {
    if s != [] && Blank(s[|s| - 1]) {
      b := TrimmedRightIs(s[..|s| - 1]);
      b := b + [s[|s| - 1]];
    } else {
      b := [];
    }
  }

  /** Trimming takes only blanks off the two ends, and leaves none there. */
  lemma TrimmedIs(s: Text) returns (a: Text, b: Text)
    ensures s == a + Trimmed(s) + b && AllBlank(a) && AllBlank(b)
    ensures Trim(Trimmed(s))
    ensures Trim(s) ==> Trimmed(s) == s
  {
    a := TrimmedLeftIs(s);
    b := TrimmedRightIs(TrimmedLeft(s));
    if Trimmed(s) != [] {
      assert TrimmedLeft(s)[0] == Trimmed(s)[0];
    }
  }

  function Cut(s: Text, n: nat): Text {
    if |s| > n then s[..n] else s
  }

  /** `normalizeTag`. */
  function NormalizeTag(s: Text): Text {
    Cut(Trimmed(s), TAG_BYTES)
  }

  /** `normalizeFolderName`. */
  function NormalizeFolder(s: Text): Text {
    Cut(Trimmed(s), FOLDER_BYTES)
  }

  /** Normalising takes the blanks, spaces and tabs, off both ends and then the first 32 bytes of a
      tag's name, 64 of a folder's; a shorter name is not cut. */
  lemma NormalizedExactly(s: Text)
    ensures forall b: byte :: Blank(b) <==> b in Ascii(" \t")
    ensures NormalizeTag(s) <= Trimmed(s) && NormalizeFolder(s) <= Trimmed(s)
    ensures |NormalizeTag(s)| == (if |Trimmed(s)| <= 32 then |Trimmed(s)| else 32)
    ensures |NormalizeFolder(s)| == (if |Trimmed(s)| <= 64 then |Trimmed(s)| else 64)
  {
    forall b: byte ensures Blank(b) <==> b in Ascii(" \t") {
      assert Ascii(" \t")[0] == 32 && Ascii(" \t")[1] == 9;
    }
  }

  /** A name that normalisation leaves alone. */
  predicate Fixed(s: Text) {
    NormalizeTag(s) == s
  }

  /** A name that normalisation can give: only one cut at 32 bytes may end in a blank. */
  predicate Normal(s: Text) {
    |s| <= TAG_BYTES && (s != [] ==> !Blank(s[0])) && (0 < |s| < TAG_BYTES ==> !Blank(s[|s| - 1]))
  }

  lemma NormalizedIsNormal(s: Text)
    ensures Normal(NormalizeTag(s))
  {
    var _, _ := TrimmedIs(s);
  }

  lemma FixedIs(s: Text)
    ensures Fixed(s) <==> |s| <= TAG_BYTES && Trim(s)
  {
    var a, b := TrimmedIs(s);
    assert |s| == |a| + |Trimmed(s)| + |b|;
  }

  /** Normalising a normal name drops its blank tail, if it has one. */
  lemma NormalizeNormal(s: Text)
    requires Normal(s)
    ensures Fixed(NormalizeTag(s))
    ensures !Fixed(s) <==> |s| == TAG_BYTES && Blank(s[|s| - 1])
  {
    FixedIs(s);
    FixedIs(NormalizeTag(s));
    var a, b := TrimmedIs(s);
  }

  /** `normalizeTag` reaches a fixed point after two applications; one is enough exactly when
      the cut does not leave a blank at the end. */
  lemma NormalizeTwice(s: Text)
    ensures Fixed(NormalizeTag(NormalizeTag(s)))
    ensures Fixed(NormalizeTag(s)) <==> (|Trimmed(s)| > TAG_BYTES ==> !Blank(Trimmed(s)[TAG_BYTES - 1]))
  {
    NormalizedIsNormal(s);
    NormalizeNormal(NormalizeTag(s));
    var _, _ := TrimmedIs(s);
  }

  function Lower(b: byte): byte {
    if 65 <= b <= 90 then b + 32 else b
  }

  /** The key of SQLite's NOCASE collation: equal keys are equal names up to ASCII case. */
  function Fold(s: Text): (k: Text)
    ensures |k| == |s| && forall i :: 0 <= i < |s| ==> k[i] == Lower(s[i])
  {
    seq(|s|, i requires 0 <= i < |s| => Lower(s[i]))
  }

  /** One of these bytes is a capital letter and the other the same letter in lower case. */
  predicate SameLetter(a: byte, b: byte) {
    (a in Ascii("ABCDEFGHIJKLMNOPQRSTUVWXYZ") && b as int == a as int + 32)
    || (b in Ascii("ABCDEFGHIJKLMNOPQRSTUVWXYZ") && a as int == b as int + 32)
  }

  lemma CapitalsAre(b: byte)
    ensures b in Ascii("ABCDEFGHIJKLMNOPQRSTUVWXYZ") <==> 65 <= b <= 90
  {
    var capitals := Ascii("ABCDEFGHIJKLMNOPQRSTUVWXYZ");
    assert forall i :: 0 <= i < 26 ==> capitals[i] as int == 65 + i;
    if 65 <= b <= 90 {
      assert capitals[b as int - 65] == b;
    }
  }

  lemma SmallLettersAre(b: byte)
    ensures b in Ascii("abcdefghijklmnopqrstuvwxyz") <==> 97 <= b <= 122
  {
    var small := Ascii("abcdefghijklmnopqrstuvwxyz");
    assert forall i :: 0 <= i < 26 ==> small[i] as int == 97 + i;
    if 97 <= b <= 122 {
      assert small[b as int - 97] == b;
    }
  }

  lemma DigitsAre(b: byte)
    ensures b in Ascii("0123456789") <==> 48 <= b <= 57
  {
    var digits := Ascii("0123456789");
    assert forall i :: 0 <= i < 10 ==> digits[i] as int == 48 + i;
    if 48 <= b <= 57 {
      assert digits[b as int - 48] == b;
    }
  }

  lemma MarksAre(b: byte)
    ensures b in Ascii("-_.") <==> b == 45 || b == 95 || b == 46
  {
    var marks := Ascii("-_.");
    assert marks[0] == 45 && marks[1] == 95 && marks[2] == 46;
  }

  /** The names differ at most in the case of ASCII letters. */
  ghost predicate SameUpToCase(s: Text, t: Text) {
    |s| == |t| && forall i :: 0 <= i < |s| ==> s[i] == t[i] || SameLetter(s[i], t[i])
  }

  /** That is when NOCASE takes two names for the same. */
  lemma FoldExactly(s: Text, t: Text)
    ensures Fold(s) == Fold(t) <==> SameUpToCase(s, t)
  {
    if |s| == |t| {
      forall i | 0 <= i < |s| ensures Lower(s[i]) == Lower(t[i]) <==> s[i] == t[i] || SameLetter(s[i], t[i]) {
        CapitalsAre(s[i]);
        CapitalsAre(t[i]);
      }
      if Fold(s) == Fold(t) {
        forall i | 0 <= i < |s| ensures s[i] == t[i] || SameLetter(s[i], t[i]) { assert Fold(s)[i] == Fold(t)[i]; }
      }
    }
  }

  /** No two different names are equal up to ASCII case. */
  ghost predicate ClashFree(names: set<Text>) {
    forall m, n :: m in names && n in names && Fold(m) == Fold(n) ==> m == n
  }

  ghost function Folds(names: set<Text>): set<Text> {
    set n | n in names :: Fold(n)
  }

  /** `instr`: needle occurs in hay. */
  ghost predicate Occurs(needle: Text, hay: Text) {
    exists a: Text, b: Text :: hay == a + needle + b
  }
}
