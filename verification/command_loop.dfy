/** The read-eval-print loop of `main` (Titanic.py lines 48-81): each line
    is stripped and routed to one outcome, and only `q` ends the loop. */
module CommandLoop {
  import opened Text
  import opened Ships
  import CountryQueries

  /** The outcome one input line is routed to. */
  datatype Command =
    | Quit
    | Help
    | ShowCountries
    | TopCountries(num: nat)
    | Usage
    | Invalid

  /** The loop keeps reading while Running; `break` makes it Stopped. */
  datatype State = Running | Stopped

  /** What the loop prints for one line, as a tag plus the query result. */
  datatype Reply =
    | Goodbye
    | HelpText
    | CountryLines(countries: seq<string>)
    | RankingLines(num: nat, rows: seq<Group>)
    | UsageText
    | InvalidText

  /** The state the loop ends in and the replies it printed, in order. */
  datatype Trace = Trace(final: State, replies: seq<Reply>)

  /** The `if` chain of lines 49-81: exact matches after `strip()`, then the
      `startswith("top_countries")` branch, whose argument must be the second
      of exactly two tokens and consist of digits. */
  function Classify(line: string): Command
  {
    var s := Strip(line);
    if s == "q" then Quit
    else if s == "help" then Help
    else if s == "show_countries" then ShowCountries
    else if StartsWith(s, "top_countries") then
      var parts := Split(s);
      if |parts| != 2 || !IsDigits(parts[1]) then Usage
      else TopCountries(DecimalValue(parts[1]))
    else Invalid
  }

  /** The loop's control: `break` on quit, `continue` on everything else. */
  function Step(st: State, c: Command): State
  {
    if st == Running && c != Quit then Running else Stopped
  }

  /** What the branch taken for `c` prints. */
  function Respond(data: Dataset, c: Command): Reply
  {
    match c
    case Quit => Goodbye
    case Help => HelpText
    case ShowCountries => CountryLines(CountryQueries.ShowCountries(data))
    case TopCountries(n) => RankingLines(n, CountryQueries.TopCountries(data, n))
    case Usage => UsageText
    case Invalid => InvalidText
  }

  /** Runs the loop from state `st` over the lines the user types. Once
      Stopped, no further line is read. */
  function Session(data: Dataset, st: State, lines: seq<string>): Trace
    decreases |lines|
  {
    if st == Stopped || |lines| == 0 then Trace(st, [])
    else
      var c := Classify(lines[0]);
      var rest := Session(data, Step(st, c), lines[1..]);
      Trace(rest.final, [Respond(data, c)] + rest.replies)
  }

  /** Position of the first line that quits; `|lines|` if none does. */
  function FirstQuit(lines: seq<string>): (k: nat)
    ensures k <= |lines|
    ensures k < |lines| ==> Classify(lines[k]) == Quit
    ensures forall i :: 0 <= i < k ==> Classify(lines[i]) != Quit
    decreases |lines|
  {
    if |lines| == 0 then 0
    else if Classify(lines[0]) == Quit then 0
    else 1 + FirstQuit(lines[1..])
  }

  /** Only the stripped line `q` stops a running loop; every other line,
      whether help, a query, a usage error or unknown text, keeps it running. */
  lemma OnlyQuitStops(line: string)
    ensures Step(Running, Classify(line)) == Stopped <==> Strip(line) == "q"
  {
  }

  /** A stopped loop reads nothing more. This is the first case of
      `Session`'s definition, stated for reference. */
  lemma StoppedIsFinal(data: Dataset, lines: seq<string>)
    ensures Session(data, Stopped, lines) == Trace(Stopped, [])
  {
  }

  /** The loop answers every line up to and including the first `q`, each
      with the reply its command calls for, and stops exactly when there is
      such a line; lines after it are never read. */
  lemma {:induction false} SessionStopsAtFirstQuit(data: Dataset, lines: seq<string>)
    ensures Session(data, Running, lines).final == Stopped <==> FirstQuit(lines) < |lines|
    ensures |Session(data, Running, lines).replies| ==
              if FirstQuit(lines) < |lines| then FirstQuit(lines) + 1 else |lines|
    ensures forall i :: 0 <= i < |Session(data, Running, lines).replies| ==>
              Session(data, Running, lines).replies[i] == Respond(data, Classify(lines[i]))
    decreases |lines|
  {
    if |lines| > 0 {
      var c := Classify(lines[0]);
      if c != Quit {
        SessionStopsAtFirstQuit(data, lines[1..]);
        var rest := Session(data, Running, lines[1..]);
        assert Session(data, Running, lines).replies == [Respond(data, c)] + rest.replies;
        forall i | 0 < i < |Session(data, Running, lines).replies|
          ensures Session(data, Running, lines).replies[i] == Respond(data, Classify(lines[i]))
        {
          assert lines[1..][i - 1] == lines[i];
        }
      }
    }
  }

  /** Typing `q` (with any surrounding whitespace) after any history of
      non-quitting lines stops the loop, and nothing typed later is read. */
  lemma QuitAfterAnyHistory(data: Dataset, history: seq<string>, quit: string, later: seq<string>)
    requires forall i :: 0 <= i < |history| ==> Strip(history[i]) != "q"
    requires Strip(quit) == "q"
    ensures Session(data, Running, history + [quit] + later).final == Stopped
    ensures Session(data, Running, history + [quit] + later).replies ==
              Session(data, Running, history + [quit]).replies
  {
    var all := history + [quit] + later;
    var upto := history + [quit];
    assert all[|history|] == quit && upto[|history|] == quit;
    assert forall i :: 0 <= i < |history| ==> all[i] == history[i] && upto[i] == history[i];
    forall i | 0 <= i < |history|
      ensures Classify(all[i]) != Quit && Classify(upto[i]) != Quit
    {
    }
    assert FirstQuit(all) == |history|;
    assert FirstQuit(upto) == |history|;
    SessionStopsAtFirstQuit(data, all);
    SessionStopsAtFirstQuit(data, upto);
  }

  /** Routing of the fixed commands: exact, case-sensitive comparison of the
      stripped line; anything that is not one of them and does not begin
      with `top_countries` is invalid. */
  lemma ClassifyKeywords(line: string)
    ensures Classify(line) == Quit <==> Strip(line) == "q"
    ensures Classify(line) == Help <==> Strip(line) == "help"
    ensures Classify(line) == ShowCountries <==> Strip(line) == "show_countries"
    ensures Classify(line) == Invalid <==>
              Strip(line) !in {"q", "help", "show_countries"} && !StartsWith(Strip(line), "top_countries")
  {
  }

  /** Whitespace around a command does not change how it is routed. */
  lemma ClassifyIgnoresPadding(pre: string, line: string, post: string)
    requires AllSpace(pre) && AllSpace(post)
    ensures Classify(pre + line + post) == Classify(line)
  {
    StripIgnoresPadding(pre, line, post);
  }

  /** The `top_countries` branch, in terms of the words typed: a first word
      that merely begins with `top_countries` is enough (`parts[0]` is never
      checked), and the query runs only for exactly one further word made of
      digits, whose decimal value becomes `num`; anything else is a usage
      error. The words may be separated by any runs of whitespace. */
  lemma {:induction false} ClassifyTopWords(pre: string, words: seq<string>, seps: seq<string>, post: string)
    requires AllSpace(pre) && AllSpace(post)
    requires |words| > 0 && AllWords(words) && AllGaps(seps) && |seps| == |words| - 1
    requires StartsWith(words[0], "top_countries")
    ensures Classify(pre + Join(words, seps) + post) ==
              if |words| == 2 && IsDigits(words[1]) then TopCountries(DecimalValue(words[1])) else Usage
  {
    var s := Join(words, seps);
    JoinShape(words, seps);
    StripPadded(pre, s, post);
    StartsWithTransitive(s, words[0], "top_countries");
    SplitJoin(words, seps);
    ClassifyTopBranch(pre + s + post, s);
  }

  /** A stripped line beginning with `top_countries` is none of the fixed
      commands, so the `top_countries` branch decides it. This follows from
      the definition of `Classify`; it serves as a stepping stone. */
  lemma ClassifyTopBranch(line: string, s: string)
    requires Strip(line) == s && StartsWith(s, "top_countries")
    ensures Classify(line) ==
              if |Split(s)| != 2 || !IsDigits(Split(s)[1]) then Usage else TopCountries(DecimalValue(Split(s)[1]))
  {
    assert s[0] == 't' && s[1] == 'o';
    assert s != "q" && s != "help" && s != "show_countries";
  }

  /** `top_countries <n>` runs the query for `n`, whatever the padding, the
      whitespace between the two words, and whatever follows
      `top_countries` in the first word. */
  lemma {:induction false} ClassifyTopRoundTrip(pre: string, name: string, sep: string, n: nat, post: string)
    requires AllSpace(pre) && AllSpace(post) && IsGap(sep)
    requires IsWord(name) && StartsWith(name, "top_countries")
    ensures Classify(pre + name + sep + DecimalString(n) + post) == TopCountries(n)
  {
    DecimalRoundTrip(n);
    var words := [name, DecimalString(n)];
    assert Join(words, [sep]) == name + sep + DecimalString(n);
    assert pre + name + sep + DecimalString(n) + post == pre + Join(words, [sep]) + post;
    ClassifyTopWords(pre, words, [sep], post);
  }

  /** Matching is exact and case-sensitive; an unknown word is invalid. */
  lemma ClassifyExactExamples()
    ensures Classify("q") == Quit && Classify("  q\n") == Quit
    ensures Classify("Q") == Invalid && Classify("HELP") == Invalid
    ensures Classify("ships_by_types") == Invalid
  {
    var s := "ships_by_types";
    StripTrimmed(s);
    assert s[..13][0] == 's';
    assert !StartsWith(s, "top_countries");
  }

  /** `top_countries` alone is a usage error. */
  lemma ClassifyMissingArgument()
    ensures Classify("top_countries") == Usage
  {
    ClassifyTopWords([], ["top_countries"], [], []);
    assert [] + Join(["top_countries"], []) + [] == "top_countries";
  }

  /** A non-numeric argument is a usage error. */
  lemma ClassifyNonDigitArgument()
    ensures Classify("top_countries abc") == Usage
  {
    ClassifyTopWords([], ["top_countries", "abc"], [" "], []);
    assert [] + Join(["top_countries", "abc"], [" "]) + [] == "top_countries abc";
  }

  /** A negative number fails `isdigit()` and is a usage error. */
  lemma ClassifyNegativeArgument()
    ensures Classify("top_countries -1") == Usage
  {
    ClassifyTopWords([], ["top_countries", "-1"], [" "], []);
    assert [] + Join(["top_countries", "-1"], [" "]) + [] == "top_countries -1";
  }

  /** Two arguments are a usage error. */
  lemma ClassifyTwoArguments()
    ensures Classify("top_countries 1 2") == Usage
  {
    ClassifyTopWords([], ["top_countries", "1", "2"], [" ", " "], []);
    assert [] + Join(["top_countries", "1", "2"], [" ", " "]) + [] == "top_countries 1 2";
  }

  /** The first word only has to begin with `top_countries`. */
  lemma ClassifyPrefixQuirk()
    ensures Classify("top_countriesX 3") == TopCountries(3)
  {
    var name := "top_countriesX";
    assert name[..13] == "top_countries";
    ClassifyTopRoundTrip([], name, " ", 3, []);
    assert [] + name + " " + DecimalString(3) + [] == "top_countriesX 3";
  }

  /** A tab or several spaces between the words work like one space. */
  lemma ClassifyWideSeparators()
    ensures Classify("top_countries\t5") == TopCountries(5)
    ensures Classify("top_countries  5") == TopCountries(5)
  {
    var name := "top_countries";
    ClassifyTopRoundTrip([], name, "\t", 5, []);
    assert [] + name + "\t" + DecimalString(5) + [] == "top_countries\t5";
    ClassifyTopRoundTrip([], name, "  ", 5, []);
    assert [] + name + "  " + DecimalString(5) + [] == "top_countries  5";
  }

  /** Leading zeros are accepted: `int("007")` is 7. */
  lemma ClassifyLeadingZeros()
    ensures Classify("top_countries 007") == TopCountries(7)
  {
    var words := ["top_countries", "007"];
    LeadingZerosExample();
    assert IsDigits(words[1]) && DecimalValue(words[1]) == 7;
    assert Join(words, [" "]) == "top_countries 007";
    ClassifyTopWords([], words, [" "], []);
    assert [] + Join(words, [" "]) + [] == Join(words, [" "]);
  }

  /** `int("007") == 7`, by stripping one leading zero at a time. */
  lemma LeadingZerosExample()
    ensures DecimalValue("007") == 7
  {
    DecimalLeadingZero("07");
    DecimalLeadingZero("7");
    assert "0" + "07" == "007" && "0" + "7" == "07";
    assert "7"[..0] == [];
  }
}
