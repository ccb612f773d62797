/** The merge queue's refusal: the core writes one sentence, `reason: item; item`,
    and the edge takes it apart again (app/usecases/delivery.py). */
module Refusal {
  import opened Text

  const REASON_SEP := ": "
  const ITEM_SEP := "; "

  datatype MergeRefusal = MergeRefusal(reason: string, missing: seq<string>)

  datatype Halves = Halves(before: string, found: bool, after: string)

  /** `str.partition`: the text around the first occurrence of `sep`. */
  function Partition(s: string, sep: string): Halves
    requires sep != ""
  {
    var i := Find(s, sep);
    if i == |s| then Halves(s, false, "") else Halves(s[..i], true, s[i + |sep|..])
  }

  /** The stripped pieces, blank ones dropped. */
  function Kept(pieces: seq<string>): seq<string> {
    if pieces == [] then []
    else (if Strip(pieces[0]) != "" then [Strip(pieces[0])] else []) + Kept(pieces[1..])
  }

  /** `_refusal`. */
  function Parse(detail: string): MergeRefusal {
    var halves := Partition(Strip(detail), REASON_SEP);
    if !halves.found then MergeRefusal(Strip(detail), [])
    else MergeRefusal(Strip(halves.before), Kept(Split(halves.after, ITEM_SEP)))
  }

  /** How the core prints a refusal: the reason alone, or the reason and its list. */
  function Sentence(r: MergeRefusal): string {
    if r.missing == [] then r.reason
    else r.reason + REASON_SEP + Join(r.missing, ITEM_SEP)
  }

  ghost predicate CleanItem(item: string) {
    item != "" && Trimmed(item) && !Contains(item, ITEM_SEP)
  }

  /** The refusals that survive the trip through the sentence. */
  ghost predicate Printable(r: MergeRefusal) {
    && Trimmed(r.reason) && !Contains(r.reason, REASON_SEP)
    && forall i :: 0 <= i < |r.missing| ==> CleanItem(r.missing[i])
  }

  lemma {:induction false} KeptOfClean(items: seq<string>)
    requires forall i :: 0 <= i < |items| ==> CleanItem(items[i])
    ensures Kept(items) == items
  {
    if items != [] {
      StripMeaning(items[0]);
      KeptOfClean(items[1..]);
    }
  }

  /** A piece free of the item separator stays free of it once stripped. */
  lemma StripFree(piece: string, sep: string)
    requires !Contains(piece, sep)
    ensures !Contains(Strip(piece), sep)
  {
    StripMeaning(piece);
    var i: nat, j: nat :| Cuts(piece, Strip(piece), i, j);
    SliceFree(piece, sep, i, j);
  }

  lemma {:induction false} KeptIsClean(pieces: seq<string>)
    requires AllFree(pieces, ITEM_SEP)
    ensures forall i :: 0 <= i < |Kept(pieces)| ==> CleanItem(Kept(pieces)[i])
  {
    if pieces != [] {
      StripMeaning(pieces[0]);
      StripFree(pieces[0], ITEM_SEP);
      KeptIsClean(pieces[1..]);
    }
  }

  /** The joined list ends where its last item ends, so the sentence is trimmed. */
  lemma {:induction false} JoinLast(items: seq<string>)
    requires items != [] && forall i :: 0 <= i < |items| ==> CleanItem(items[i])
    ensures var text := Join(items, ITEM_SEP); text != "" && !IsSpace(text[|text| - 1])
  {
    if |items| > 1 {
      JoinLast(items[1..]);
    }
  }

  lemma PrintedIsTrimmed(r: MergeRefusal)
    requires Printable(r)
    ensures Strip(Sentence(r)) == Sentence(r)
  {
    StripMeaning(Sentence(r));
    if r.missing != [] {
      JoinLast(r.missing);
    }
  }

  /** The first reason separator of a sentence is the printer's. */
  lemma SentenceParts(reason: string, tail: string)
    requires !Contains(reason, REASON_SEP)
    ensures Partition(reason + REASON_SEP + tail, REASON_SEP) == Halves(reason, true, tail)
  {
    var text := reason + REASON_SEP + tail;
    FindAfterPiece(reason, REASON_SEP, tail);
    assert text[..|reason|] == reason && text[|reason| + |REASON_SEP|..] == tail;
  }

  /** The sentence, spelled out. */
  lemma SentenceBySight(reason: string, first: string, second: string)
    ensures Sentence(MergeRefusal(reason, [])) == reason
    ensures Sentence(MergeRefusal(reason, [first])) == reason + ": " + first
    ensures Sentence(MergeRefusal(reason, [first, second])) == reason + ": " + (first + "; " + second)
  {
    assert Join([first], ITEM_SEP) == first;
    assert [first, second][1..] == [second] && Join([second], ITEM_SEP) == second;
    assert Join([first, second], ITEM_SEP) == first + "; " + second;
  }

  /** The parser undoes the core's printer on every printable refusal. */
  lemma ParsesWhatIsPrinted(r: MergeRefusal)
    requires Printable(r)
    ensures Parse(Sentence(r)) == r
  {
    PrintedIsTrimmed(r);
    if r.missing != [] {
      SentenceParts(r.reason, Join(r.missing, ITEM_SEP));
      StripMeaning(r.reason);
      SplitOfJoin(r.missing, ITEM_SEP);
      KeptOfClean(r.missing);
    }
  }

  lemma HalvesArePrintable(before: string, tail: string)
    requires !Contains(before, REASON_SEP)
    ensures Printable(MergeRefusal(Strip(before), Kept(Split(tail, ITEM_SEP))))
  {
    StripMeaning(before);
    StripFree(before, REASON_SEP);
    JoinOfSplit(tail, ITEM_SEP);
    KeptIsClean(Split(tail, ITEM_SEP));
  }

  /** Whatever the core writes, what the parser returns is printable. */
  lemma ParsedIsPrintable(detail: string)
    ensures Printable(Parse(detail))
  {
    var text := Strip(detail);
    var i := Find(text, REASON_SEP);
    if i < |text| {
      BeforeFindFree(text, REASON_SEP);
      HalvesArePrintable(text[..i], text[i + |REASON_SEP|..]);
    } else {
      StripMeaning(detail);
    }
  }

  /** The exact range of the round trip: printing then parsing gives a refusal
      back if and only if it is printable. */
  lemma RoundTripExactly(r: MergeRefusal)
    ensures Parse(Sentence(r)) == r <==> Printable(r)
  {
    ParsedIsPrintable(Sentence(r));
    if Printable(r) {
      ParsesWhatIsPrinted(r);
    }
  }

  /** For every detail, with a list or without, printing what was parsed and
      parsing it again changes nothing. */
  lemma ParsingIsStable(detail: string)
    ensures Parse(Sentence(Parse(detail))) == Parse(detail)
  {
    ParsedIsPrintable(detail);
    ParsesWhatIsPrinted(Parse(detail));
  }

  lemma {:induction false} KeptLast(pieces: seq<string>)
    requires pieces != [] && Strip(pieces[|pieces| - 1]) != ""
    ensures Kept(pieces) != []
  {
    if |pieces| > 1 {
      KeptLast(pieces[1..]);
    }
  }

  lemma {:induction false} JoinLastPiece(pieces: seq<string>, sep: string)
    requires |pieces| > 1
    ensures Join(pieces, sep) == Join(pieces[..|pieces| - 1], sep) + sep + pieces[|pieces| - 1]
  {
    var init := pieces[..|pieces| - 1];
    if |pieces| > 2 {
      JoinLastPiece(pieces[1..], sep);
      assert pieces[1..][..|pieces| - 2] == init[1..];
    }
  }

  /** After the item separator, a text that does not end in whitespace has something. */
  lemma SomethingAfter(head: string, last: string)
    requires !IsSpace((head + ITEM_SEP + last)[|head| + |last| + 1])
    ensures last != "" && !IsSpace(last[|last| - 1])
  {
    assert (head + ITEM_SEP)[|head| + 1] == ITEM_SEP[1] == ' ';
    assert last == "" ==> head + ITEM_SEP + last == head + ITEM_SEP;
  }

  /** A tail that does not end in whitespace holds at least one item: its last
      piece cannot be blank. */
  lemma TailHasItem(tail: string)
    requires tail != "" && !IsSpace(tail[|tail| - 1])
    ensures Kept(Split(tail, ITEM_SEP)) != []
  {
    var pieces := Split(tail, ITEM_SEP);
    var last := pieces[|pieces| - 1];
    JoinOfSplit(tail, ITEM_SEP);
    if |pieces| > 1 {
      JoinLastPiece(pieces, ITEM_SEP);
      SomethingAfter(Join(pieces[..|pieces| - 1], ITEM_SEP), last);
    }
    StripLastKept(last);
    KeptLast(pieces);
  }

  lemma StripLastKept(s: string)
    requires s != "" && !IsSpace(s[|s| - 1])
    ensures Strip(s) != ""
  {
    var i := StripLeftCuts(s);
    var j := StripRightCuts(s[i..]);
  }

  /** No list is ever invented and none is lost: items come out exactly when the
      stripped sentence carries the reason separator. */
  lemma ItemsExactlyWhenSeparated(detail: string)
    ensures Parse(detail).missing != [] <==> Contains(Strip(detail), REASON_SEP)
    ensures !Contains(Strip(detail), REASON_SEP) ==> Parse(detail).reason == Strip(detail)
  {
    var text := Strip(detail);
    var i := Find(text, REASON_SEP);
    if i < |text| {
      var tail := text[i + |REASON_SEP|..];
      assert !IsSpace(text[|text| - 1]) by { StripMeaning(detail); }
      assert text[i + 1] == REASON_SEP[1] == ' ';
      assert tail != "" && tail[|tail| - 1] == text[|text| - 1];
      TailHasItem(tail);
    }
  }
}
