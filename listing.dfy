/**
 * The memory-initialization listing `write_result` prints for the assembled
 * words: a fixed header, one record per word giving its decimal address and
 * its bits, and a closing line.
 */
module Listing {
  import opened Outcomes
  import opened Decimal

  /** The header lines: 16-bit words, 256 of them, decimal addresses, binary data. */
  const Header: seq<string> := ["WIDTH=16;", "DEPTH=256;", "ADDRESS_RADIX=DEC;", "DATA_RADIX=BIN;", "CONTENT BEGIN"]

  const Footer: string := "END;"

  /** The record for the word at address i: a tab, the address, ` : `, the word and `;`. */
  function Record(i: nat, word: string): string
  {
    "\t" + DecString(i) + " : " + word + ";"
  }

  /** The records for words placed from address start on. */
  function Records(words: seq<string>, start: nat): (rs: seq<string>)
    ensures |rs| == |words|
    ensures forall k :: 0 <= k < |words| ==> rs[k] == Record(start + k, words[k])
  {
    if words == [] then []
    else [Record(start, words[0])] + Records(words[1..], start + 1)
  }

  /** Every line printed for the result, in order. */
  function Listing(words: seq<string>): (lines: seq<string>)
    ensures |lines| == |Header| + |words| + 1
    ensures lines[..|Header|] == Header && lines[|lines| - 1] == Footer
    ensures forall k :: 0 <= k < |words| ==> lines[|Header| + k] == Record(k, words[k])
  {
    Header + Records(words, 0) + [Footer]
  }

  // ------------------------------------------------------------- reading it back

  /** Reads one record: the address and the word, or nothing if the line is not a record. */
  function ParseRecord(line: string): Option<(nat, string)>
  {
    if |line| < 1 || line[0] != '\t' then None
    else
      var body := line[1..];
      var n := Span(body, IsDigit);
      assert AllDigits(body[..n]);
      if n == 0 || |body| < n + 4 || body[n..n + 3] != " : " || body[|body| - 1] != ';' then None
      else Some((DigitsValue(body[..n]), body[n + 3..|body| - 1]))
  }

  /** Reads the records of consecutive addresses from start on. */
  function ParseRecords(lines: seq<string>, start: nat): Option<seq<string>>
  {
    if lines == [] then Some([])
    else
      match ParseRecord(lines[0])
      case None => None
      case Some(entry) =>
        if entry.0 != start then None
        else
          match ParseRecords(lines[1..], start + 1)
          case None => None
          case Some(ws) => Some([entry.1] + ws)
  }

  /** Reads a whole listing back into the words it lists. */
  function ParseListing(lines: seq<string>): Option<seq<string>>
  {
    if |lines| < |Header| + 1 || lines[..|Header|] != Header || lines[|lines| - 1] != Footer then None
    else ParseRecords(lines[|Header|..|lines| - 1], 0)
  }

  // ------------------------------------------------------------- lemmas

  /** The text after the tab of a record: the digits, ` : `, the word and `;`, each where the reader looks. */
  lemma RecordBody(d: string, word: string)
    requires |d| >= 1 && AllDigits(d)
    ensures var body := d + " : " + word + ";";
      Span(body, IsDigit) == |d| && |body| == |d| + 4 + |word| &&
      body[..|d|] == d && body[|d|..|d| + 3] == " : " &&
      body[|body| - 1] == ';' && body[|d| + 3..|body| - 1] == word
  {
    var body := d + " : " + word + ";";
    assert body == d + (" : " + word + ";");
    DigitSpan(d, " : " + word + ";");
  }

  /** A record gives back its address and its word, whatever the word holds. */
  lemma RecordRoundTrip(i: nat, word: string)
    ensures ParseRecord(Record(i, word)) == Some((i, word))
  {
    var d := DecString(i);
    assert Record(i, word)[1..] == d + " : " + word + ";";
    RecordBody(d, word);
    DecStringValue(i);
  }

  lemma {:induction false} DigitSpan(d: string, rest: string)
    requires AllDigits(d) && rest != [] && !IsDigit(rest[0])
    ensures Span(d + rest, IsDigit) == |d|
  {
    if d != [] {
      assert (d + rest)[1..] == d[1..] + rest;
      DigitSpan(d[1..], rest);
    }
  }

  lemma {:induction false} RecordsRoundTrip(words: seq<string>, start: nat)
    ensures ParseRecords(Records(words, start), start) == Some(words)
  {
    if words != [] {
      var rs := Records(words, start);
      RecordRoundTrip(start, words[0]);
      assert rs[1..] == Records(words[1..], start + 1);
      RecordsRoundTrip(words[1..], start + 1);
      assert [words[0]] + words[1..] == words;
    }
  }

  /** The listing can be read back: it determines the assembled words exactly. */
  lemma ListingRoundTrip(words: seq<string>)
    ensures ParseListing(Listing(words)) == Some(words)
  {
    var lines := Listing(words);
    assert lines[|Header|..|lines| - 1] == Records(words, 0);
    RecordsRoundTrip(words, 0);
  }

  /** Different results give different listings. */
  lemma ListingInjective(a: seq<string>, b: seq<string>)
    requires Listing(a) == Listing(b)
    ensures a == b
  {
    ListingRoundTrip(a);
    ListingRoundTrip(b);
  }
}
