/** How the sources of a matrix change are printed: the numbers of a list, joined. */
module MatrixText {
  import opened Wrappers
  import opened Text
  import opened Int32Sets

  function Digits(n: nat): string {
    (if n < 10 then [] else Digits(n / 10)) + ['0' + (n % 10) as char]
  }

  function Itoa(n: int): string {
    if n < 0 then ['-'] + Digits(-n) else Digits(n)
  }

  function Numbers(xs: seq<int32>): seq<string> {
    seq(|xs|, i requires 0 <= i < |xs| => Itoa(xs[i] as int))
  }

  /** A list of sources as text; crosspoint changes join with a semicolon, replacements with
      a comma. */
  function ListText(xs: seq<int32>, sep: char): string {
    Join(Numbers(xs), sep)
  }

  lemma {:induction false} DigitsRead(n: nat)
    ensures Digits(n) != [] && AllDigits(Digits(n)) && Decimal(Digits(n)) == n
  {
    var s := Digits(n);
    if n >= 10 {
      DigitsRead(n / 10);
      assert s[..|s| - 1] == Digits(n / 10);
    } else {
      assert s[..|s| - 1] == [];
    }
  }

  lemma AtoiPlain(s: string, n: nat)
    requires s != [] && AllDigits(s) && Decimal(s) == n <= MAX_INT64
    ensures Atoi(s) == Some(n)
  {
    assert IsDigit(s[0]);
  }

  lemma AtoiMinus(s: string, n: nat)
    requires s != [] && AllDigits(s) && Decimal(s) == n <= MAX_INT64 + 1
    ensures Atoi(['-'] + s) == Some(0 - n)
  {
    assert (['-'] + s)[1..] == s;
  }

  /** A printed number is read back. */
  lemma ItoaReads(n: int)
    requires -MAX_INT64 - 1 <= n <= MAX_INT64
    ensures Atoi(Itoa(n)) == Some(n)
  {
    var size: nat := if n < 0 then -n else n;
    var s := Digits(size);
    DigitsRead(size);
    if n < 0 {
      AtoiMinus(s, size);
    } else {
      AtoiPlain(s, size);
    }
  }

  lemma DigitsLack(s: string, sep: char)
    requires AllDigits(s) && !IsDigit(sep)
    ensures sep !in s
  {
  }

  lemma ItoaLacks(n: int, sep: char)
    requires !IsDigit(sep) && sep != '-'
    ensures Itoa(n) != [] && Lacks(Itoa(n), {sep})
  {
    var s := Digits(if n < 0 then -n else n);
    DigitsRead(if n < 0 then -n else n);
    DigitsLack(s, sep);
    assert Itoa(n) == if n < 0 then ['-'] + s else s;
  }

  lemma NumbersSplit(xs: seq<int32>, sep: char)
    requires xs != [] && !IsDigit(sep) && sep != '-'
    ensures ListText(xs, sep) != [] && Split(ListText(xs, sep), sep) == Numbers(xs)
  {
    forall p | p in Numbers(xs)
      ensures p != [] && Lacks(p, {sep})
    {
      var i :| 0 <= i < |xs| && Numbers(xs)[i] == p;
      ItoaLacks(xs[i] as int, sep);
    }
    SplitJoin(Numbers(xs), sep, {sep});
    assert Numbers(xs)[0] in Numbers(xs);
  }

  /** The text tells the lists apart: to keep a change's lists is to keep its text. */
  lemma ListTextTells(xs: seq<int32>, ys: seq<int32>, sep: char)
    requires !IsDigit(sep) && sep != '-'
    ensures ListText(xs, sep) == ListText(ys, sep) <==> xs == ys
  {
    if ListText(xs, sep) == ListText(ys, sep) && xs != [] && ys != [] {
      NumbersSplit(xs, sep);
      NumbersSplit(ys, sep);
      SameNumbers(xs, ys);
    } else if xs != [] {
      NumbersSplit(xs, sep);
    } else if ys != [] {
      NumbersSplit(ys, sep);
    }
  }

  lemma SameNumbers(xs: seq<int32>, ys: seq<int32>)
    requires Numbers(xs) == Numbers(ys)
    ensures xs == ys
  {
    assert |xs| == |Numbers(xs)| == |Numbers(ys)| == |ys|;
    forall i | 0 <= i < |xs|
      ensures xs[i] == ys[i]
    {
      assert Numbers(xs)[i] == Numbers(ys)[i];
      ItoaReads(xs[i] as int);
      ItoaReads(ys[i] as int);
    }
  }
}
