/** The error-code printer of the services and the gateway's parser for the text it ends up in. */
module StatusCodes {
  import opened Wrappers
  import opened Strings

  datatype Code = Code(code: int64, msg: string)

  const INTERNAL_ERROR: int64 := 515

  const MARK := "desc = "

  /** Code.Error. */
  function Error(c: Code): string {
    if |c.msg| > 0 then Itoa(c.code) + " " + c.msg else Itoa(c.code)
  }

  /** unwrapHttpStatusCode. */
  function Unwrap(s: string): (int64, string) {
    if IndexOf(s, "connect") >= 0 then (INTERNAL_ERROR, "")
    else
      var descIndex := IndexOf(s, MARK);
      if descIndex == -1 then (0, s)
      else
        var desc := TrimSpace(s[descIndex + 6..]);
        var segs := Split(desc, ' ');
        var code := Atoi(segs[0]);
        (code, if code == 0 then desc else Join(segs[1..], ' '))
  }

  /** The text a status error carries: something, the mark, and the printed code. */
  function Carried(before: string, c: Code): string { before + MARK + Error(c) }

  /** The parser finds the printed code where it was put. */
  predicate Clean(before: string, c: Code) {
    IndexOf(Carried(before, c), "connect") == -1 && IndexOf(Carried(before, c), MARK) == |before|
  }

  lemma TrimmedEnd(s: string)
    ensures TrimRight(s) == s <==> s == [] || !IsSpace(s[|s| - 1])
  {
    if s != [] { TrimRightShorter(s[..|s| - 1]); }
  }

  lemma {:induction false} TrimRightShorter(s: string)
    ensures |TrimRight(s)| <= |s|
  {
    if s == [] {
    } else {
      TrimRightShorter(s[..|s| - 1]);
    }
  }

  lemma {:induction false} TrimRightTwice(s: string)
    ensures TrimRight(TrimRight(s)) == TrimRight(s)
  {
    if s == [] {
    } else {
      TrimRightTwice(s[..|s| - 1]);
    }
  }

  /** Trimming a text after a part that does not end in a space, with one space in between. */
  lemma {:induction false} TrimRightAfter(a: string, b: string)
    requires a != [] && !IsSpace(a[|a| - 1])
    ensures TrimRight(a + " " + b) == if TrimRight(b) == [] then a else a + " " + TrimRight(b)
  {
    var s := a + " " + b;
    if b == [] {
      assert s[..|s| - 1] == a;
      TrimmedEnd(a);
    } else if IsSpace(b[|b| - 1]) {
      assert s[..|s| - 1] == a + " " + b[..|b| - 1];
      TrimRightAfter(a, b[..|b| - 1]);
    }
  }

  lemma NumeralText(n: int)
    ensures var s := Itoa(n); s != [] && !IsSpace(s[0]) && !IsSpace(s[|s| - 1]) && ' ' !in s
  {
    ItoaAlphabet(n, ' ');
    var s := Itoa(n);
    var m := if n < 0 then -n else n;
    assert IsDigit(Digits(m)[|Digits(m)| - 1]) && IsDigit(Digits(m)[0]);
    assert s[0] == '-' || s[0] == Digits(m)[0];
    assert s[|s| - 1] == Digits(m)[|Digits(m)| - 1];
  }

  /** The trimmed text of a printed code. */
  function Shown(c: Code): string {
    Itoa(c.code) + if TrimRight(c.msg) == [] then [] else " " + TrimRight(c.msg)
  }

  lemma TrimLeftSpace(s: string)
    requires s != [] && !IsSpace(s[0])
    ensures TrimLeft(" " + s) == s
  {
    var text := " " + s;
    assert text[1..] == s && IsSpace(' ');
  }

  lemma TrimPrinted(c: Code)
    ensures TrimSpace(" " + Error(c)) == Shown(c)
  {
    hide TrimLeft, TrimRight, IsSpace, Itoa;
    var number := Itoa(c.code);
    NumeralText(c.code);
    assert Error(c)[0] == number[0];
    TrimLeftSpace(Error(c));
    if |c.msg| > 0 {
      TrimRightAfter(number, c.msg);
    } else {
      TrimmedEnd(number);
      TrimRightShorter(c.msg);
    }
    assert number + [] == number;
  }

  lemma SplitShown(c: Code)
    ensures var segs := Split(Shown(c), ' ');
            segs[0] == Itoa(c.code) && Join(segs[1..], ' ') == TrimRight(c.msg)
  {
    var number, rest := Itoa(c.code), TrimRight(c.msg);
    NumeralText(c.code);
    SplitWhole(number, ' ');
    if rest == [] {
      assert number + [] == number;
    } else {
      assert Shown(c) == number + [' '] + rest;
      SplitAtSeparator(number, rest, ' ');
      JoinSplit(rest, ' ');
      assert ([number] + Split(rest, ' '))[1..] == Split(rest, ' ');
    }
  }

  /** What the gateway reads back from a clean text, for every code and message. */
  lemma UnwrapPrinted(before: string, c: Code)
    requires Clean(before, c)
    ensures Unwrap(Carried(before, c)) == (c.code, if c.code == 0 then Shown(c) else TrimRight(c.msg))
  {
    var s := Carried(before, c);
    assert s[|before| + 6..] == " " + Error(c);
    TrimPrinted(c);
    SplitShown(c);
    AtoiItoa(c.code);
  }

  lemma CleanPrintParse(before: string, c: Code)
    requires Clean(before, c)
    ensures Unwrap(Carried(before, c)) == (c.code, c.msg) <==>
            c.code != 0 && (c.msg == [] || !IsSpace(c.msg[|c.msg| - 1]))
  {
    UnwrapPrinted(before, c);
    TrimmedEnd(c.msg);
    if c.code == 0 && Shown(c) == c.msg {
      ShownIsLonger(c);
    }
  }

  lemma CarriedMark(before: string, c: Code)
    ensures OccursAt(Carried(before, c), MARK, |before|)
  {
    assert Carried(before, c)[|before|..|before| + |MARK|] == MARK;
  }

  /** A mark does not overlap itself. */
  lemma MarksApart(s: string, i: nat, n: nat)
    requires i < n && OccursAt(s, MARK, i) && OccursAt(s, MARK, n)
    ensures i + |MARK| <= n
  {
    assert forall k :: 0 <= k < |MARK| ==> s[i + k] == MARK[k];
    assert s[n..n + |MARK|][0] == s[n] == s[i + (n - i)];
  }

  /** An earlier mark ends before the one that was put. */
  lemma EarlierMark(before: string, c: Code, i: nat) returns (between: string)
    requires i < |before| && OccursAt(Carried(before, c), MARK, i)
    ensures Carried(before, c)[i + 6..] == " " + between + MARK + Error(c)
  {
    hide Error;
    var s := Carried(before, c);
    CarriedMark(before, c);
    MarksApart(s, i, |before|);
    between := before[i + 7..];
    assert s[i + 6] == s[i..i + |MARK|][6] == ' ';
    assert s[i + 6..] == [s[i + 6]] + s[i + 7..];
    assert s[i + 7..] == between + MARK + Error(c);
  }

  lemma {:induction false} TrimLeftAffix(a: string, b: string) returns (left: string)
    requires b != [] && !IsSpace(b[0])
    ensures TrimLeft(a + b) == left + b
  {
    if a == [] {
      left := [];
      assert a + b == b == left + b;
    } else if IsSpace(a[0]) {
      assert (a + b)[1..] == a[1..] + b;
      left := TrimLeftAffix(a[1..], b);
    } else {
      left := a;
    }
  }

  lemma TrimRightPrinted(a: string, c: Code)
    ensures TrimRight(a + Error(c)) == a + Shown(c)
  {
    var number := Itoa(c.code);
    NumeralText(c.code);
    hide Itoa, TrimRight;
    TrimmedEnd(a + number);
    TrimRightShorter([]);
    if |c.msg| > 0 {
      assert a + Error(c) == (a + number) + " " + c.msg;
      TrimRightAfter(a + number, c.msg);
    }
    assert number + [] == number;
    assert a + Shown(c) == a + number + if TrimRight(c.msg) == [] then [] else " " + TrimRight(c.msg);
  }

  lemma {:induction false} JoinAppend(a: seq<string>, b: seq<string>, sep: char) returns (left: string)
    requires b != []
    ensures Join(a + b, sep) == left + Join(b, sep)
  {
    if a == [] {
      left := [];
      assert a + b == b && left + Join(b, sep) == Join(b, sep);
    } else {
      var rest := JoinAppend(a[1..], b, sep);
      left := a[0] + [sep] + rest;
      assert (a + b)[1..] == a[1..] + b && (a + b)[0] == a[0];
    }
  }

  /** What follows the first space of a text still ends in what follows a later one. */
  lemma AfterFirstSpace(a: string, b: string) returns (left: string)
    ensures var segs := Split(a + " " + b, ' '); Join(segs[1..], ' ') == left + b
  {
    SplitAtSeparator(a, b, ' ');
    var front, back := Split(a, ' '), Split(b, ' ');
    JoinSplit(b, ' ');
    left := JoinAppend(front[1..], back, ' ');
    assert (front + back)[1..] == front[1..] + back;
  }

  /** No message ends in what is shown of its own code, with something in front. */
  lemma ShownNotInMessage(left: string, c: Code)
    ensures left + "= " + Shown(c) != c.msg
  {
    NumeralText(c.code);
    TrimmedEnd(c.msg);
    TrimRightTwice(c.msg);
    TrimmedEnd(TrimRight(c.msg));
    hide Itoa, TrimRight, IsSpace;
    var shown := Shown(c);
    assert TrimRight(c.msg) == [] ==> shown == Itoa(c.code);
    assert TrimRight(c.msg) != [] ==> shown[|shown| - 1] == TrimRight(c.msg)[|TrimRight(c.msg)| - 1];
    var text := left + "= " + shown;
    assert text[|text| - 1] == shown[|shown| - 1];
  }

  /** With an earlier mark the text that is read back is longer than the message. */
  lemma EarlierMarkMisleads(before: string, c: Code, i: nat)
    requires i < |before| && IndexOf(Carried(before, c), MARK) == i && IndexOf(Carried(before, c), "connect") == -1
    ensures Unwrap(Carried(before, c)).1 != c.msg
  {
    hide IndexOf, Error, Shown, TrimLeft, TrimRight, Split, Join, Atoi;
    var between := EarlierMark(before, c, i);
    assert " " + between + MARK + Error(c) == (" " + between) + (MARK + Error(c));
    assert MARK[0] == 'd' && !IsSpace('d');
    var left := TrimLeftAffix(" " + between, MARK + Error(c));
    assert left + (MARK + Error(c)) == (left + MARK) + Error(c);
    TrimRightPrinted(left + MARK, c);
    var desc := (left + MARK) + Shown(c);
    var head, tail := left + "desc", "= " + Shown(c);
    assert desc == head + " " + tail;
    var rest := AfterFirstSpace(head, tail);
    assert rest + tail == rest + "= " + Shown(c);
    ShownNotInMessage(rest, c);
    assert desc == (head + " ") + "= " + Shown(c);
    ShownNotInMessage(head + " ", c);
  }

  lemma IndexFound(s: string, pat: string)
    ensures IndexOf(s, pat) >= 0 <==> exists j :: OccursAt(s, pat, j)
  {
  }

  /** Code and message come back exactly in two cases: the text mentions "connect" and the code is the internal
      error 515 without a message, or it does not, the mark is the first one, the code is not zero and the message
      does not end in white space. */
  lemma PrintParse(before: string, c: Code)
    ensures var s := before + "desc = " + Error(c);
            Unwrap(s) == (c.code, c.msg) <==>
              if exists j :: OccursAt(s, "connect", j) then c.code == 515 && c.msg == ""
              else
                && !(exists j :: j < |before| && OccursAt(s, "desc = ", j))
                && c.code != 0 && (c.msg == [] || !IsSpace(c.msg[|c.msg| - 1]))
  {
    var s := before + "desc = " + Error(c);
    assert s == Carried(before, c);
    hide IndexOf, Carried, IsSpace, Error;
    IndexFound(s, "connect");
    if IndexOf(s, "connect") < 0 {
      CarriedMark(before, c);
      var i := IndexOf(s, MARK);
      if i == |before| {
        CleanPrintParse(before, c);
      } else {
        EarlierMarkMisleads(before, c, i);
      }
    }
  }

  /** The printed code: a message follows after one space, and nothing does without a message. */
  lemma ErrorText()
    ensures Error(Code(515, "no route")) == "515 no route" && Error(Code(7, "")) == "7" && Error(Code(-3, "x")) == "-3 x"
  {
  }

  // ---------------------------------------------------------------- any text

  /** What white space trimming takes off. */
  lemma TrimLeftStep(s: string)
    ensures TrimLeft(s) == if s != [] && IsSpace(s[0]) then TrimLeft(s[1..]) else s
  {
  }

  lemma {:induction false} TrimLeftMeaning(s: string) returns (left: string)
    ensures s == left + TrimLeft(s) && forall c :: c in left ==> IsSpace(c)
    ensures TrimLeft(s) == [] || !IsSpace(TrimLeft(s)[0])
  {
    hide IsSpace, TrimLeft;
    TrimLeftStep(s);
    if s == [] || !IsSpace(s[0]) {
      left := [];
      assert s == [] + s;
    } else {
      var rest := TrimLeftMeaning(s[1..]);
      left := [s[0]] + rest;
      assert s == [s[0]] + s[1..] == [s[0]] + (rest + TrimLeft(s[1..])) == left + TrimLeft(s);
    }
  }

  lemma {:induction false} TrimRightMeaning(s: string) returns (right: string)
    ensures s == TrimRight(s) + right && forall c :: c in right ==> IsSpace(c)
    ensures TrimRight(s) == [] || !IsSpace(TrimRight(s)[|TrimRight(s)| - 1])
  {
    hide IsSpace;
    if s == [] || !IsSpace(s[|s| - 1]) {
      right := [];
    } else {
      var rest := TrimRightMeaning(s[..|s| - 1]);
      right := rest + [s[|s| - 1]];
      assert s == s[..|s| - 1] + [s[|s| - 1]];
    }
  }

  /** Trimming takes off white space only, and as much of it as there is at both ends. */
  lemma TrimSpaceMeaning(s: string) returns (left: string, right: string)
    ensures s == left + TrimSpace(s) + right
    ensures (forall c :: c in left ==> IsSpace(c)) && forall c :: c in right ==> IsSpace(c)
    ensures var t := TrimSpace(s); t == [] || (!IsSpace(t[0]) && !IsSpace(t[|t| - 1]))
  {
    hide IsSpace;
    left := TrimLeftMeaning(s);
    right := TrimRightMeaning(TrimLeft(s));
    var t := TrimSpace(s);
    assert t != [] ==> TrimLeft(s)[0] == t[0];
  }

  /** A text without a mark comes back as it is, with code 0. */
  lemma NoMark(s: string)
    requires !exists j :: OccursAt(s, "connect", j)
    requires !exists j :: OccursAt(s, "desc = ", j)
    ensures Unwrap(s) == (0, s)
  {
    hide IndexOf;
    IndexFound(s, "connect");
    IndexFound(s, MARK);
  }

  /** A text with "connect" in it, wherever, is the internal error 515 without a message. */
  lemma ConnectIs515(s: string, j: int)
    requires OccursAt(s, "connect", j)
    ensures Unwrap(s) == (515, "")
  {
    hide IndexOf;
    IndexFound(s, "connect");
  }

  /** What follows the first mark is trimmed; if its first word is a numeral other than zero that is the code, and
      the message is the rest; otherwise the code is 0 and the message is all of it. */
  lemma UnwrapMarked(before: string, text: string, word: string, rest: string)
    requires var s := before + "desc = " + text;
             && !(exists j :: OccursAt(s, "connect", j)) && !(exists j :: j < |before| && OccursAt(s, "desc = ", j))
    requires ' ' !in word
    requires var t := TrimSpace(" " + text); t == word + " " + rest || (t == word && rest == "")
    ensures Unwrap(before + "desc = " + text) ==
            if Atoi(word) == 0 then (0, TrimSpace(" " + text)) else (Atoi(word), rest)
  {
    var s := before + "desc = " + text;
    hide IndexOf, TrimSpace, Atoi, Split, Join;
    IndexFound(s, "connect");
    assert s[|before|..|before| + 7] == MARK;
    assert OccursAt(s, MARK, |before|);
    assert IndexOf(s, MARK) == |before|;
    assert s[|before| + 6..] == " " + text;
    FirstWord(TrimSpace(" " + text), word, rest);
  }

  lemma FirstWord(t: string, word: string, rest: string)
    requires ' ' !in word && (t == word + " " + rest || (t == word && rest == ""))
    ensures Split(t, ' ')[0] == word && Join(Split(t, ' ')[1..], ' ') == rest
  {
    hide Split, Join;
    SplitWhole(word, ' ');
    if t == word {
      assert [word][1..] == [];
      assert Join([], ' ') == "" by { NothingJoined(); }
    } 
    if t == word + " " + rest {
      SplitAtSeparator(word, rest, ' ');
      JoinSplit(rest, ' ');
      assert ([word] + Split(rest, ' '))[1..] == Split(rest, ' ');
    }
  }

  lemma NothingJoined()
    ensures Join([], ' ') == ""
  {
  }

  lemma ShownIsLonger(c: Code)
    ensures Shown(c) != c.msg || c.code != 0
  {
    NumeralText(c.code);
    TrimmedEnd(c.msg);
    TrimRightTwice(c.msg);
    TrimmedEnd(TrimRight(c.msg));
    var shown := Shown(c);
    assert TrimRight(c.msg) == [] ==> shown == Itoa(c.code);
    assert TrimRight(c.msg) != [] ==> shown[|shown| - 1] == TrimRight(c.msg)[|TrimRight(c.msg)| - 1];
  }

  /** The gateway shows nothing of an error that mentions "connect", even when a code is carried. */
  lemma ConnectHidesCode(before: string, c: Code, i: nat)
    requires OccursAt(c.msg, "connect", i)
    ensures Unwrap(Carried(before, c)) == (515, "")
  {
    hide IndexOf, TrimLeft, TrimRight, Split, Join, Atoi, Itoa;
    var s := Carried(before, c);
    var j := |s| - |c.msg| + i;
    assert s[|s| - |c.msg|..] == c.msg;
    assert s[j..j + 7] == c.msg[i..i + 7];
    assert OccursAt(s, "connect", j);
  }
}
