/**
 * The two tests in `git::commit`'s `mod tests`, read through the model:
 * one chunk on its own, and a log of seven commits as git prints it.
 */
module Fixtures {
  import opened Wrappers
  import Text
  import opened GitCommit
  import opened GitCommitFacts
  import opened LogFormat
  import opened Decimal

  // Hashes and messages are written as concatenations of short literals, so
  // that each fact about one of them (no newline in it) stays a small proof.
  const AUTHOR := "Damian Kocjan"

  const HASH1 := "797a1acbdec5e0db0eda" + "d56ee53e009b65be52ff"
  const MESSAGE1 := "fix: update " + "tailwindcss file " + "name in shadcn " + "config"
  const C1 := Commit(HASH1, AUTHOR, 1727789190, MESSAGE1, None)
  const CHUNK1 := HASH1 + "\n" + AUTHOR + "\n" + "1727789190" + "\n" + MESSAGE1

  const HASH2 := "38c53a749226dc9b7fbc" + "71d0cbe5f5c9cb2f287e"
  const MESSAGE2 := "feat: get commits"
  const C2 := Commit(HASH2, AUTHOR, 1727786432, MESSAGE2, None)
  const CHUNK2 := HASH2 + "\n" + AUTHOR + "\n" + "1727786432" + "\n" + MESSAGE2

  const HASH3 := "c48207137657e4ecf085" + "63db4ca43e03392cddaf"
  const MESSAGE3 := "test: add test " + "config"
  const C3 := Commit(HASH3, AUTHOR, 1727694652, MESSAGE3, None)
  const CHUNK3 := HASH3 + "\n" + AUTHOR + "\n" + "1727694652" + "\n" + MESSAGE3

  const HASH4 := "383ceb3b61672aca95f5" + "0622afd4e8a6f7b3fe35"
  const MESSAGE4 := "chore: change " + "tailwindcss config " + "to ts file"
  const C4 := Commit(HASH4, AUTHOR, 1727694637, MESSAGE4, None)
  const CHUNK4 := HASH4 + "\n" + AUTHOR + "\n" + "1727694637" + "\n" + MESSAGE4

  const HASH5 := "3d0dfe5bff45ab179e56" + "902801fead74b73442ba"
  const MESSAGE5 := "style: change to " + "`New York` shadcn " + "style"
  const C5 := Commit(HASH5, AUTHOR, 1727650366, MESSAGE5, None)
  const CHUNK5 := HASH5 + "\n" + AUTHOR + "\n" + "1727650366" + "\n" + MESSAGE5

  const HASH6 := "86b27dfb437f7d35d918" + "3c7045dd8d8e1fac4864"
  const MESSAGE6 := "add shadcn"
  const C6 := Commit(HASH6, AUTHOR, 1727131415, MESSAGE6, None)
  const CHUNK6 := HASH6 + "\n" + AUTHOR + "\n" + "1727131415" + "\n" + MESSAGE6

  const HASH7 := "c0ce0b88c373589159ad" + "61deba7e6c1c29f2af02"
  const MESSAGE7 := "init"
  const C7 := Commit(HASH7, AUTHOR, 1727130272, MESSAGE7, None)
  const CHUNK7 := HASH7 + "\n" + AUTHOR + "\n" + "1727130272" + "\n" + MESSAGE7

  /**
   * The output of `test_commits_parsing`, built from its end: TAIL7 is the
   * last chunk with its final newline, and each TAILk puts chunk k and a
   * blank line in front of TAIL(k+1).
   */
  const TAIL7 := CHUNK7 + "\n"
  const TAIL6 := CHUNK6 + RECORD_SEP + TAIL7
  const TAIL5 := CHUNK5 + RECORD_SEP + TAIL6
  const TAIL4 := CHUNK4 + RECORD_SEP + TAIL5
  const TAIL3 := CHUNK3 + RECORD_SEP + TAIL4
  const TAIL2 := CHUNK2 + RECORD_SEP + TAIL3
  const TAIL1 := CHUNK1 + RECORD_SEP + TAIL2
  const LOG_TEXT := TAIL1

  /** The commits of TAILk: PARTk is commit k followed by PART(k+1). */
  const PART7 := [C7]
  const PART6 := [C6] + PART7
  const PART5 := [C5] + PART6
  const PART4 := [C4] + PART5
  const PART3 := [C3] + PART4
  const PART2 := [C2] + PART3
  const PART1 := [C1] + PART2

  /** The history of the log fixture, newest commit first: C1, C2, ..., C7. */
  const HISTORY := PART1

  lemma AuthorLine()
    ensures '\n' !in AUTHOR && AUTHOR != ""
  {
  }

  /**
   * A commit by AUTHOR is printable once its hash and message are known to be
   * free of newlines. For the fixtures each fact about one literal is its own
   * lemma (HashLineN, MessageLineN), since proving them together in one
   * lemma costs the solver several times as much.
   */
  lemma PrintableOf(c: Commit)
    requires '\n' !in c.hash && '\n' !in c.message && c.message != ""
    requires c.author == AUTHOR && c.description == None
    ensures Printable(c)
  {
    AuthorLine();
  }

  lemma RenderEpochPrefix()
    ensures Render(17277) == "17277" && Render(17276) == "17276" && Render(17271) == "17271"
  {
    assert Render(1) == "1";
    assert Render(17) == "17";
    assert Render(172) == "172";
    assert Render(1727) == "1727";
  }

  lemma Record1()
    ensures Record(C1) == CHUNK1
  {
    RenderEpochPrefix();
    assert Render(172778) == "172778";
    assert Render(1727789) == "1727789";
    assert Render(17277891) == "17277891";
    assert Render(172778919) == "172778919";
  }

  lemma HashLine1()
    ensures '\n' !in HASH1
  {
  }

  lemma MessageLine1()
    ensures '\n' !in MESSAGE1 && MESSAGE1 != ""
  {
  }

  lemma Printable1()
    ensures Printable(C1)
  {
    HashLine1();
    MessageLine1();
    PrintableOf(C1);
  }

  lemma Record2()
    ensures Record(C2) == CHUNK2
  {
    RenderEpochPrefix();
    assert Render(172778) == "172778";
    assert Render(1727786) == "1727786";
    assert Render(17277864) == "17277864";
    assert Render(172778643) == "172778643";
  }

  lemma HashLine2()
    ensures '\n' !in HASH2
  {
  }

  lemma MessageLine2()
    ensures '\n' !in MESSAGE2 && MESSAGE2 != ""
  {
  }

  lemma Printable2()
    ensures Printable(C2)
  {
    HashLine2();
    MessageLine2();
    PrintableOf(C2);
  }

  lemma Record3()
    ensures Record(C3) == CHUNK3
  {
    RenderEpochPrefix();
    assert Render(172769) == "172769";
    assert Render(1727694) == "1727694";
    assert Render(17276946) == "17276946";
    assert Render(172769465) == "172769465";
  }

  lemma HashLine3()
    ensures '\n' !in HASH3
  {
  }

  lemma MessageLine3()
    ensures '\n' !in MESSAGE3 && MESSAGE3 != ""
  {
  }

  lemma Printable3()
    ensures Printable(C3)
  {
    HashLine3();
    MessageLine3();
    PrintableOf(C3);
  }

  lemma Record4()
    ensures Record(C4) == CHUNK4
  {
    RenderEpochPrefix();
    assert Render(172769) == "172769";
    assert Render(1727694) == "1727694";
    assert Render(17276946) == "17276946";
    assert Render(172769463) == "172769463";
  }

  lemma HashLine4()
    ensures '\n' !in HASH4
  {
  }

  lemma MessageLine4()
    ensures '\n' !in MESSAGE4 && MESSAGE4 != ""
  {
  }

  lemma Printable4()
    ensures Printable(C4)
  {
    HashLine4();
    MessageLine4();
    PrintableOf(C4);
  }

  lemma Record5()
    ensures Record(C5) == CHUNK5
  {
    RenderEpochPrefix();
    assert Render(172765) == "172765";
    assert Render(1727650) == "1727650";
    assert Render(17276503) == "17276503";
    assert Render(172765036) == "172765036";
  }

  lemma HashLine5()
    ensures '\n' !in HASH5
  {
  }

  lemma MessageLine5()
    ensures '\n' !in MESSAGE5 && MESSAGE5 != ""
  {
  }

  lemma Printable5()
    ensures Printable(C5)
  {
    HashLine5();
    MessageLine5();
    PrintableOf(C5);
  }

  lemma Record6()
    ensures Record(C6) == CHUNK6
  {
    RenderEpochPrefix();
    assert Render(172713) == "172713";
    assert Render(1727131) == "1727131";
    assert Render(17271314) == "17271314";
    assert Render(172713141) == "172713141";
  }

  lemma HashLine6()
    ensures '\n' !in HASH6
  {
  }

  lemma MessageLine6()
    ensures '\n' !in MESSAGE6 && MESSAGE6 != ""
  {
  }

  lemma Printable6()
    ensures Printable(C6)
  {
    HashLine6();
    MessageLine6();
    PrintableOf(C6);
  }

  lemma Record7()
    ensures Record(C7) == CHUNK7
  {
    RenderEpochPrefix();
    assert Render(172713) == "172713";
    assert Render(1727130) == "1727130";
    assert Render(17271302) == "17271302";
    assert Render(172713027) == "172713027";
  }

  lemma HashLine7()
    ensures '\n' !in HASH7
  {
  }

  lemma MessageLine7()
    ensures '\n' !in MESSAGE7 && MESSAGE7 != ""
  {
  }

  lemma Printable7()
    ensures Printable(C7)
  {
    HashLine7();
    MessageLine7();
    PrintableOf(C7);
  }

  lemma Tail7()
    ensures ParseLog(TAIL7) == Ok(PART7)
  {
    Printable7();
    Record7();
    SingleEntry(C7);
  }

  lemma Tail6()
    ensures ParseLog(TAIL6) == Ok(PART6)
  {
    Tail7();
    Printable6();
    Record6();
    PrependRecord(C6, TAIL7, PART7);
  }

  lemma Tail5()
    ensures ParseLog(TAIL5) == Ok(PART5)
  {
    Tail6();
    Printable5();
    Record5();
    PrependRecord(C5, TAIL6, PART6);
  }

  lemma Tail4()
    ensures ParseLog(TAIL4) == Ok(PART4)
  {
    Tail5();
    Printable4();
    Record4();
    PrependRecord(C4, TAIL5, PART5);
  }

  lemma Tail3()
    ensures ParseLog(TAIL3) == Ok(PART3)
  {
    Tail4();
    Printable3();
    Record3();
    PrependRecord(C3, TAIL4, PART4);
  }

  lemma Tail2()
    ensures ParseLog(TAIL2) == Ok(PART2)
  {
    Tail3();
    Printable2();
    Record2();
    PrependRecord(C2, TAIL3, PART3);
  }

  lemma Tail1()
    ensures ParseLog(TAIL1) == Ok(PART1)
  {
    Tail2();
    Printable1();
    Record1();
    PrependRecord(C1, TAIL2, PART2);
  }

  /** `test_single_commit_parsing`: the four lines give the four fields. */
  lemma SingleCommitFixture()
    ensures SingleCommit(CHUNK1) == Ok(C1)
  {
    Printable1();
    Record1();
    RecordRoundTrip(C1);
  }

  /**
   * `test_commits_parsing`: the seven chunks give the seven commits, in
   * log order.
   */
  lemma CommitsFixture()
    ensures ParseLog(LOG_TEXT) == Ok(HISTORY)
    ensures |HISTORY| == 7
    ensures HISTORY[0] == C1 && HISTORY[0].timestamp == 1727789190
    ensures HISTORY[1] == C2 && HISTORY[1].message == MESSAGE2
  {
    Tail1();
  }

  /** The seven chunks of the log fixture are separated by six blank lines. */
  lemma SeparatorsFixture()
    ensures Text.Count(LOG_TEXT, RECORD_SEP) == 6
  {
    CommitsFixture();
    LogLength(LOG_TEXT);
  }
}
