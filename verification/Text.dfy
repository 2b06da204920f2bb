/** The string functions of Go's standard library that the modelled code relies on:
    strings.Split, strings.TrimSpace, strings.Fields, sort.Strings, strconv.Atoi and %d.
    A char is a Unicode scalar value; comparing two strings char by char orders them as
    Go's byte-wise comparison of their UTF-8 encodings does. */
module Text {
  import opened Wrappers

  // ---------- decimal numbers ----------

  const MAX_INT: int := 0x7FFF_FFFF_FFFF_FFFF  // Go's int on the supported 64-bit targets

  function Digit(d: nat): char
    requires d < 10
  {
    (d + 48) as char
  }

  predicate IsDigit(c: char) {
    '0' <= c <= '9'
  }

  predicate AllDigits(s: string) {
    forall i | 0 <= i < |s| :: IsDigit(s[i])
  }

  function DecimalNat(n: nat): (s: string)
    ensures s != "" && AllDigits(s)
  {
    if n < 10 then [Digit(n)] else DecimalNat(n / 10) + [Digit(n % 10)]
  }

  /** The %d verb. */
  function Decimal(n: int): string {
    if n < 0 then "-" + DecimalNat(-n) else DecimalNat(n)
  }

  /** The last digit, and the others. */
  lemma DecimalDigits(n: nat)
    ensures Decimal(n) == (if n < 10 then "" else Decimal(n / 10)) + ["0123456789"[n % 10]]
    ensures n > 0 ==> Decimal(0 - n) == "-" + Decimal(n)
  {
  }

  function DigitsValue(s: string): nat
    requires AllDigits(s)
  {
    if s == "" then 0
    else DigitsValue(s[..|s| - 1]) * 10 + (s[|s| - 1] as int - 48)
  }

  function ParseNat(s: string): Option<nat> {
    if s != "" && AllDigits(s) then Some(DigitsValue(s)) else None
  }

  /** An optional sign followed by at least one digit. */
  function ParseInt(s: string): Option<int> {
    if s == "" then None
    else if s[0] == '-' then
      match ParseNat(s[1..])
      case Some(n) => Option<int>.Some(-(n as int))
      case None => None
    else
      ParseNat(if s[0] == '+' then s[1..] else s)
  }

  /** strconv.Atoi: a value outside the range of int is an error. */
  function Atoi(s: string): Option<int> {
    var n :- ParseInt(s);
    if -MAX_INT - 1 <= n <= MAX_INT then Some(n) else None
  }

  lemma {:induction false} DecimalNatValue(n: nat)
    ensures DigitsValue(DecimalNat(n)) == n
  {
    if n < 10 {
      assert [Digit(n)][..0] == "";
    } else {
      DecimalNatValue(n / 10);
      var s := DecimalNat(n / 10) + [Digit(n % 10)];
      assert s[..|s| - 1] == DecimalNat(n / 10);
    }
  }

  lemma DecimalRoundTrip(n: int)
    ensures ParseInt(Decimal(n)) == Some(n)
    ensures forall i | 0 <= i < |Decimal(n)| :: IsDigit(Decimal(n)[i]) || Decimal(n)[i] == '-'
    ensures Decimal(n) != ""
  {
    var digits := DecimalNat(if n < 0 then -n else n);
    DecimalNatValue(if n < 0 then -n else n);
    assert ParseNat(digits) == Some(if n < 0 then -n else n);
    assert IsDigit(digits[0]);
    if n < 0 {
      assert Decimal(n)[1..] == digits;
    }
  }

  lemma DecimalFree(n: int, c: char)
    requires !IsDigit(c) && c != '-'
    ensures c !in Decimal(n)
  {
    DecimalRoundTrip(n);
  }

  // ---------- splitting ----------

  function IndexOf(s: string, c: char): (i: nat)
    ensures i <= |s|
    ensures i < |s| ==> s[i] == c
    ensures forall j | 0 <= j < i :: s[j] != c
  {
    if s == "" || s[0] == c then 0 else 1 + IndexOf(s[1..], c)
  }

  /** strings.Split with a one-character separator. */
  function Split(s: string, c: char): (parts: seq<string>)
    ensures parts != []
    decreases |s|
  {
    var i := IndexOf(s, c);
    if i == |s| then [s] else [s[..i]] + Split(s[i + 1..], c)
  }

  lemma IndexOfIs(s: string, c: char, i: nat)
    requires i <= |s| && (i < |s| ==> s[i] == c)
    requires forall j | 0 <= j < i :: s[j] != c
    ensures IndexOf(s, c) == i
  {
    assert !(IndexOf(s, c) < i);
    assert !(i < IndexOf(s, c));
  }

  lemma SplitWhole(s: string, c: char)
    requires c !in s
    ensures Split(s, c) == [s]
  {
    IndexOfIs(s, c, |s|);
  }

  lemma SplitFirst(first: string, c: char, others: string)
    requires c !in first
    ensures Split(first + [c] + others, c) == [first] + Split(others, c)
  {
    var s := first + [c] + others;
    IndexOfIs(s, c, |first|);
    assert s[..|first|] == first && s[|first| + 1..] == others;
  }

  lemma {:induction false} SplitConcat(a: string, c: char, b: string)
    ensures Split(a + [c] + b, c) == Split(a, c) + Split(b, c)
    decreases |a|
  {
    var i := IndexOf(a, c);
    if i == |a| {
      SplitFirst(a, c, b);
    } else {
      assert a == a[..i] + [c] + a[i + 1..];
      var first, others := a[..i], a[i + 1..];
      Parted(first, c, others, b);
      SplitFirst(first, c, others + [c] + b);
      SplitConcat(others, c, b);
      Associative([first], Split(others, c), Split(b, c));
    }
  }

  lemma Parted(first: string, c: char, others: string, b: string)
    ensures first + [c] + others + [c] + b == first + [c] + (others + [c] + b)
  {
  }

  lemma Associative<T>(a: seq<T>, b: seq<T>, c: seq<T>)
    ensures a + (b + c) == (a + b) + c
  {
  }

  lemma {:induction false} SplitPartsFree(s: string, c: char)
    ensures forall i | 0 <= i < |Split(s, c)| :: c !in Split(s, c)[i]
    decreases |s|
  {
    var i := IndexOf(s, c);
    if i < |s| {
      SplitPartsFree(s[i + 1..], c);
    }
  }

  // ---------- lines ----------

  function Unlines(lines: seq<string>): string {
    if lines == [] then "" else lines[0] + "\n" + Unlines(lines[1..])
  }

  lemma {:induction false} UnlinesConcat(a: seq<string>, b: seq<string>)
    ensures Unlines(a + b) == Unlines(a) + Unlines(b)
  {
    if a == [] {
      assert a + b == b;
    } else {
      assert (a + b)[1..] == a[1..] + b;
      UnlinesConcat(a[1..], b);
    }
  }

  lemma {:induction false} SplitUnlines(lines: seq<string>)
    requires forall i | 0 <= i < |lines| :: '\n' !in lines[i]
    ensures Split(Unlines(lines), '\n') == lines + [""]
  {
    if lines != [] {
      SplitUnlines(lines[1..]);
      assert Unlines(lines) == lines[0] + ['\n'] + Unlines(lines[1..]);
      SplitConcat(lines[0], '\n', Unlines(lines[1..]));
      SplitWhole(lines[0], '\n');
      assert [lines[0]] + (lines[1..] + [""]) == lines + [""];
    }
  }

  lemma {:induction false} UnlinesSplit(s: string)
    ensures Unlines(Split(s, '\n')) == s + "\n"
    decreases |s|
  {
    var i := IndexOf(s, '\n');
    if i < |s| {
      UnlinesSplit(s[i + 1..]);
      var parts := Split(s, '\n');
      assert parts[1..] == Split(s[i + 1..], '\n');
      assert s == s[..i] + "\n" + s[i + 1..];
    } else {
      assert Split(s, '\n')[1..] == [];
    }
  }

  // ---------- white space ----------

  /** unicode.IsSpace */
  predicate IsSpace(c: char) {
    || '\U{0009}' <= c <= '\U{000d}' || c == ' ' || c == '\U{0085}' || c == '\U{00a0}'
    || c == '\U{1680}' || '\U{2000}' <= c <= '\U{200a}' || c == '\U{2028}' || c == '\U{2029}'
    || c == '\U{202f}' || c == '\U{205f}' || c == '\U{3000}'
  }

  function TrimLeft(s: string): string {
    if s != "" && IsSpace(s[0]) then TrimLeft(s[1..]) else s
  }

  function TrimRight(s: string): string {
    if s != "" && IsSpace(s[|s| - 1]) then TrimRight(s[..|s| - 1]) else s
  }

  /** strings.TrimSpace */
  function TrimSpace(s: string): string {
    TrimLeft(TrimRight(s))
  }

  lemma {:induction false} TrimLeftSuffix(s: string)
    ensures |TrimLeft(s)| <= |s| && TrimLeft(s) == s[|s| - |TrimLeft(s)|..]
    ensures TrimLeft(s) != "" ==> !IsSpace(TrimLeft(s)[0])
  {
    if s != "" && IsSpace(s[0]) {
      TrimLeftSuffix(s[1..]);
    }
  }

  lemma {:induction false} TrimRightPrefix(s: string)
    ensures TrimRight(s) <= s
    ensures TrimRight(s) != "" ==> !IsSpace(TrimRight(s)[|TrimRight(s)| - 1])
  {
    if s != "" && IsSpace(s[|s| - 1]) {
      TrimRightPrefix(s[..|s| - 1]);
    }
  }

  lemma TrimSpaceNewline(s: string)
    ensures TrimSpace(s + "\n") == TrimSpace(s)
  {
    assert (s + "\n")[..|s|] == s;
  }

  lemma {:induction false} TrimRightKeeps(s: string, i: nat)
    requires i < |s| && !IsSpace(s[i])
    ensures i < |TrimRight(s)|
  {
    if IsSpace(s[|s| - 1]) {
      TrimRightKeeps(s[..|s| - 1], i);
    }
  }

  /** The ASCII characters among the white space. */
  lemma AsciiSpaces(c: char)
    requires c < '\U{0080}'
    ensures IsSpace(c) <==> c == ' ' || '\t' <= c <= '\r'
  {
  }

  predicate Blank(s: string) {
    forall i | 0 <= i < |s| :: IsSpace(s[i])
  }

  /** What is left is the text between its first and its last character that is not white space. */
  lemma TrimSpaceIs(left: string, s: string, right: string)
    requires Blank(left) && Blank(right)
    requires s != "" ==> !IsSpace(s[0]) && !IsSpace(s[|s| - 1])
    ensures TrimSpace(left + s + right) == s
  {
    TrimRightBlank(left + s, right);
    if s == "" {
      assert left + s == left == "" + left;
      TrimRightBlank("", left);
    } else {
      assert (left + s)[|left + s| - 1] == s[|s| - 1];
      TrimLeftBlank(left, s);
    }
  }

  lemma {:induction false} TrimRightBlank(s: string, right: string)
    requires Blank(right)
    ensures TrimRight(s + right) == TrimRight(s)
  {
    if right == "" {
      assert s + right == s;
    } else {
      var shorter := right[..|right| - 1];
      assert (s + right)[..|s + right| - 1] == s + shorter;
      assert (s + right)[|s + right| - 1] == right[|right| - 1];
      TrimRightBlank(s, shorter);
    }
  }

  lemma {:induction false} TrimLeftBlank(left: string, s: string)
    requires Blank(left)
    ensures TrimLeft(left + s) == TrimLeft(s)
  {
    if left == "" {
      assert left + s == s;
    } else {
      assert (left + s)[1..] == left[1..] + s;
      TrimLeftBlank(left[1..], s);
    }
  }

  /** The longest prefix without white space. */
  function Word(s: string): (w: string)
    ensures w <= s
    ensures forall i | 0 <= i < |w| :: !IsSpace(w[i])
    ensures |w| < |s| ==> IsSpace(s[|w|])
  {
    if s == "" || IsSpace(s[0]) then "" else [s[0]] + Word(s[1..])
  }

  /** strings.Fields */
  function Fields(s: string): (fields: seq<string>)
    ensures forall i | 0 <= i < |fields| ::
              fields[i] != "" && forall j | 0 <= j < |fields[i]| :: !IsSpace(fields[i][j])
    decreases |s|
  {
    var t := TrimLeft(s);
    TrimLeftSuffix(s);
    if t == "" then []
    else
      var w := Word(t);
      assert w != "";
      [w] + Fields(t[|w|..])
  }

  lemma {:induction false} TrimLeftKeeps(s: string, i: nat)
    requires i < |s| && !IsSpace(s[i])
    ensures TrimLeft(s) != ""
  {
    if IsSpace(s[0]) {
      TrimLeftKeeps(s[1..], i - 1);
    }
  }

  predicate IsWord(w: string) {
    w != "" && forall i | 0 <= i < |w| :: !IsSpace(w[i])
  }

  lemma FieldsCons(word: string, tail: string)
    requires IsWord(word) && (tail != "" ==> IsSpace(tail[0]))
    ensures Fields(word + tail) == [word] + Fields(tail)
  {
    var s := word + tail;
    assert s[0] == word[0] && TrimLeft(s) == s;
    var w := Word(s);
    assert |w| >= |word| by {
      assert forall i | 0 <= i < |word| :: s[i] == word[i];
    }
    assert |w| <= |word| by {
      assert |word| < |s| ==> s[|word|] == tail[0];
    }
    assert w == word && s[|w|..] == tail;
  }

  lemma FieldsSkip(space: string, s: string)
    requires |space| == 1 && IsSpace(space[0])
    ensures Fields(space + s) == Fields(s)
  {
    assert (space + s)[1..] == s;
    assert TrimLeft(space + s) == TrimLeft(s);
  }

  /** A listing with one word a line reads back as its words. */
  lemma {:induction false} FieldsUnlines(words: seq<string>)
    requires forall i | 0 <= i < |words| :: IsWord(words[i])
    ensures Fields(Unlines(words)) == words
  {
    if words != [] {
      FieldsUnlines(words[1..]);
      var tail := "\n" + Unlines(words[1..]);
      assert Unlines(words) == words[0] + tail;
      FieldsCons(words[0], tail);
      FieldsSkip("\n", Unlines(words[1..]));
    }
  }

  /** A blank text has no fields. */
  lemma BlankFields(s: string)
    requires TrimSpace(s) == ""
    ensures Fields(s) == []
  {
    TrimLeftSuffix(s);
    if TrimLeft(s) != "" {
      var i := |s| - |TrimLeft(s)|;
      TrimRightKeeps(s, i);
      TrimRightPrefix(s);
      TrimLeftKeeps(TrimRight(s), i);
    }
  }

  /** The first field of a trimmed line that begins with a word. */
  lemma FirstField(word: string, tail: string)
    requires word != "" && forall i | 0 <= i < |word| :: !IsSpace(word[i])
    requires tail != "" ==> IsSpace(tail[0])
    ensures TrimSpace(word + tail) != ""
    ensures Fields(TrimSpace(word + tail)) != []
    ensures Fields(TrimSpace(word + tail))[0] == word
  {
    var s := word + tail;
    TrimRightKeeps(s, |word| - 1);
    TrimRightPrefix(s);
    var t := TrimRight(s);
    assert t[0] == word[0];
    assert TrimSpace(s) == t == TrimLeft(t);
    var w := Word(t);
    assert forall i | 0 <= i < |t| :: t[i] == s[i];
    assert |w| >= |word| by {
      assert forall i | 0 <= i < |word| :: t[i] == word[i];
    }
    assert |w| <= |word| by {
      assert |word| < |t| ==> t[|word|] == tail[0];
    }
    assert w == word;
  }

  // ---------- ordering and sorting ----------

  predicate Leq(a: string, b: string) {
    a == "" || (b != "" && (a[0] < b[0] || (a[0] == b[0] && Leq(a[1..], b[1..]))))
  }

  /** The order is decided by the first character that differs; a prefix comes first. */
  lemma {:induction false} LeqFirstDifference(a: string, b: string, i: nat)
    requires i <= |a| && i <= |b| && a[..i] == b[..i]
    requires i < |a| && i < |b| ==> a[i] != b[i]
    ensures Leq(a, b) <==> i == |a| || (i < |b| && a[i] < b[i])
  {
    if i > 0 {
      assert a[0] == a[..i][0] == b[..i][0] == b[0];
      assert a[1..][..i - 1] == a[..i][1..] == b[..i][1..] == b[1..][..i - 1];
      LeqFirstDifference(a[1..], b[1..], i - 1);
    }
  }

  lemma LeqTotal(a: string, b: string)
    ensures Leq(a, b) || Leq(b, a)
  {
  }

  lemma {:induction false} LeqAntisymmetric(a: string, b: string)
    requires Leq(a, b) && Leq(b, a)
    ensures a == b
  {
    if a != "" {
      LeqAntisymmetric(a[1..], b[1..]);
      assert a == [a[0]] + a[1..];
      assert b == [b[0]] + b[1..];
    }
  }

  lemma {:induction false} LeqTransitive(a: string, b: string, c: string)
    requires Leq(a, b) && Leq(b, c)
    ensures Leq(a, c)
  {
    if a != "" && a[0] == b[0] && b[0] == c[0] {
      LeqTransitive(a[1..], b[1..], c[1..]);
    }
  }

  predicate Sorted(s: seq<string>) {
    forall i, j | 0 <= i < j < |s| :: Leq(s[i], s[j])
  }

  lemma SortedCons(x: string, s: seq<string>)
    requires Sorted(s) && (s != [] ==> Leq(x, s[0]))
    ensures Sorted([x] + s)
  {
    forall j | 0 <= j < |s| ensures Leq(x, s[j]) {
      if j > 0 { LeqTransitive(x, s[0], s[j]); }
    }
  }

  lemma MultisetHead(s: seq<string>)
    requires s != []
    ensures multiset(s) == multiset{s[0]} + multiset(s[1..])
  {
    assert s == [s[0]] + s[1..];
  }

  function Insert(x: string, s: seq<string>): (r: seq<string>) {
    if s == [] then [x]
    else if Leq(x, s[0]) then [x] + s
    else [s[0]] + Insert(x, s[1..])
  }

  lemma {:induction false} InsertKeeps(x: string, s: seq<string>)
    ensures multiset(Insert(x, s)) == multiset(s) + multiset{x}
  {
    if s != [] {
      MultisetHead(s);
      InsertKeeps(x, s[1..]);
    }
  }

  lemma {:induction false} InsertOrders(x: string, s: seq<string>)
    requires Sorted(s)
    ensures Sorted(Insert(x, s))
    ensures Insert(x, s)[0] == x || (s != [] && Insert(x, s)[0] == s[0])
  {
    if s != [] {
      if Leq(x, s[0]) {
        SortedCons(x, s);
      } else {
        LeqTotal(x, s[0]);
        InsertOrders(x, s[1..]);
        SortedCons(s[0], Insert(x, s[1..]));
      }
    }
  }

  lemma InsertSorts(x: string, s: seq<string>)
    requires Sorted(s)
    ensures Sorted(Insert(x, s))
    ensures multiset(Insert(x, s)) == multiset(s) + multiset{x}
  {
    InsertKeeps(x, s);
    InsertOrders(x, s);
  }

  /** sort.Strings, fixed by its contract: see SortUnique. */
  function SortStrings(s: seq<string>): (r: seq<string>)
    ensures Sorted(r)
    ensures multiset(r) == multiset(s)
  {
    if s == [] then []
    else
      MultisetHead(s);
      InsertSorts(s[0], SortStrings(s[1..]));
      Insert(s[0], SortStrings(s[1..]))
  }

  lemma SortedFirst(s: seq<string>, x: string)
    requires Sorted(s) && x in s
    ensures Leq(s[0], x)
  {
    LeqTotal(x, x);
  }

  lemma SameHead(a: seq<string>, b: seq<string>)
    requires Sorted(a) && Sorted(b) && multiset(a) == multiset(b) && a != []
    ensures b != [] && a[0] == b[0]
  {
    assert a[0] in multiset(b);
    assert b[0] in multiset(a);
    SortedFirst(a, b[0]);
    SortedFirst(b, a[0]);
    LeqAntisymmetric(a[0], b[0]);
  }

  lemma SameTail(a: seq<string>, b: seq<string>)
    requires a != [] && b != [] && a[0] == b[0] && multiset(a) == multiset(b)
    ensures multiset(a[1..]) == multiset(b[1..])
  {
    MultisetHead(a);
    MultisetHead(b);
    assert multiset(a[1..]) == multiset(a) - multiset{a[0]};
    assert multiset(b[1..]) == multiset(b) - multiset{a[0]};
  }

  lemma {:induction false} SortedUnique(a: seq<string>, b: seq<string>)
    requires Sorted(a) && Sorted(b) && multiset(a) == multiset(b)
    ensures a == b
  {
    if a == [] {
      assert |multiset(a)| == |multiset(b)| == |b|;
    } else {
      SameHead(a, b);
      SameTail(a, b);
      SortedUnique(a[1..], b[1..]);
      assert a == [a[0]] + a[1..] && b == [a[0]] + b[1..];
    }
  }

  /** Sorting forgets the order in which the strings were collected. */
  lemma SortUnique(a: seq<string>, b: seq<string>)
    requires multiset(a) == multiset(b)
    ensures SortStrings(a) == SortStrings(b)
  {
    SortedUnique(SortStrings(a), SortStrings(b));
  }
}
