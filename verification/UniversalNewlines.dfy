/**
 * Text files as Python's text mode gives them back: what is written is kept as it is, and what
 * is read has every carriage return, with a line feed after it or not, turned into a line feed.
 */
module UniversalNewlines {
  function ReadText(s: string): string {
    if s == [] then []
    else if s[0] == '\r' then ['\n'] + ReadText(s[if |s| > 1 && s[1] == '\n' then 2 else 1..])
    else [s[0]] + ReadText(s[1..])
  }

  lemma {:induction false} ReadTextHasNoCarriageReturn(s: string)
    ensures '\r' !in ReadText(s)
  {
    if s != [] {
      ReadTextHasNoCarriageReturn(s[if s[0] == '\r' && |s| > 1 && s[1] == '\n' then 2 else 1..]);
    }
  }

  lemma {:induction false} ReadTextKeepsPlainText(s: string)
    requires '\r' !in s
    ensures ReadText(s) == s
  {
    if s != [] {
      ReadTextKeepsPlainText(s[1..]);
    }
  }

  /** Text survives being written and read back exactly when it holds no carriage return. */
  lemma ReadBackIsExact(s: string)
    ensures ReadText(s) == s <==> '\r' !in s
    ensures ReadText(ReadText(s)) == ReadText(s)
  {
    ReadTextHasNoCarriageReturn(s);
    ReadTextKeepsPlainText(ReadText(s));
    if '\r' !in s {
      ReadTextKeepsPlainText(s);
    }
  }

  lemma {:induction false} PlainFirst(plain: string, more: string)
    requires '\r' !in plain
    ensures ReadText(plain + more) == plain + ReadText(more)
  {
    if plain == "" {
      assert plain + more == more;
    } else {
      PlainFirst(plain[1..], more);
      assert (plain + more)[0] == plain[0] && (plain + more)[1..] == plain[1..] + more;
    }
  }

  /** Text mode, mark by mark: plain text is kept, and each of the three line endings is read as a line feed. */
  lemma LineEndings(plain: string, rest: string)
    requires '\r' !in plain
    ensures ReadText(plain + ("\r\n" + rest)) == plain + ("\n" + ReadText(rest))
    ensures ReadText(plain + ("\n" + rest)) == plain + ("\n" + ReadText(rest))
    ensures rest == "" || rest[0] != '\n' ==> ReadText(plain + ("\r" + rest)) == plain + ("\n" + ReadText(rest))
  {
    PlainFirst(plain, "\r\n" + rest);
    PlainFirst(plain, "\n" + rest);
    PlainFirst(plain, "\r" + rest);
    assert ("\r\n" + rest)[2..] == rest && ("\n" + rest)[1..] == rest && ("\r" + rest)[1..] == rest;
  }
}
