/**
 * The response parser of the subtitle translator (`extract_json_list`):
 * pulls a JSON list out of a reply that may be wrapped in prose.
 * JSON decoding itself (`json.loads`) is a parameter: a decoder yields the
 * decoded list of strings, or `None` where `json.loads` raises.
 */
module ResponseParser {
  import opened Wrappers

  /** `json.loads` restricted to lists of strings; `None` is a decode error. */
  type Decoder = string -> Option<seq<string>>

  /** Python's `str.find` for one character: the first index of `c`, or -1. */
  function Find(s: string, c: char): (r: int)
    ensures r == -1 <==> c !in s
    ensures r != -1 ==> 0 <= r < |s| && s[r] == c && c !in s[..r]
  {
    if |s| == 0 then -1
    else if s[0] == c then 0
    else
      var k := Find(s[1..], c);
      if k == -1 then -1
      else
        assert s[..k + 1] == [s[0]] + s[1..][..k];
        k + 1
  }

  /** Python's `str.rfind` for one character: the last index of `c`, or -1. */
  function RFind(s: string, c: char): (r: int)
    ensures r == -1 <==> c !in s
    ensures r != -1 ==> 0 <= r < |s| && s[r] == c && c !in s[r + 1..]
  {
    if |s| == 0 then -1
    else if s[|s| - 1] == c then |s| - 1
    else
      var k := RFind(s[..|s| - 1], c);
      assert k == -1 ==> s == s[..|s| - 1] + [s[|s| - 1]];
      assert k != -1 ==> s[k + 1..] == s[..|s| - 1][k + 1..] + [s[|s| - 1]];
      k
  }

  /** Python's slice `s[lo:hi]` for non-negative bounds: clamped, empty when reversed. */
  function Slice(s: string, lo: nat, hi: nat): (r: string)
    ensures lo <= hi <= |s| ==> r == s[lo..hi]
    ensures hi <= lo ==> r == []
  {
    var h := if hi <= |s| then hi else |s|;
    if lo < h then s[lo..h] else []
  }

  /** `lo` is the first `[` of `text` and `hi` its last `]`. */
  predicate Brackets(text: string, lo: int, hi: int)
  {
    0 <= lo < |text| && text[lo] == '[' && '[' !in text[..lo] &&
    0 <= hi < |text| && text[hi] == ']' && ']' !in text[hi + 1..]
  }

  /**
   * `extract_json_list`: when both brackets occur, decode exactly the span from
   * the first `[` to the last `]` (empty when they are reversed); only when one
   * of them is missing, decode the whole text. Every failure is `None`.
   */
  function ExtractJsonList(text: string, decode: Decoder): (r: Option<seq<string>>)
    ensures '[' !in text || ']' !in text ==> r == decode(text)
    ensures forall lo, hi :: Brackets(text, lo, hi) ==> r == decode(Slice(text, lo, hi + 1))
  {
    var start := Find(text, '[');
    var end := RFind(text, ']');
    if start != -1 && end != -1 then
      assert forall lo, hi :: Brackets(text, lo, hi) ==> lo == start && hi == end by {
        forall lo, hi | Brackets(text, lo, hi) ensures lo == start && hi == end {
          AbsentBefore(text, '[', lo);
          AbsentBefore(text, '[', start);
          AbsentAfter(text, ']', hi);
          AbsentAfter(text, ']', end);
        }
      }
      decode(Slice(text, start, end + 1))
    else
      decode(text)
  }

  lemma AbsentBefore(s: string, c: char, i: nat)
    requires i <= |s| && c !in s[..i]
    ensures forall k :: 0 <= k < i ==> s[k] != c
  {
    forall k | 0 <= k < i ensures s[k] != c {
      assert s[..i][k] == s[k];
    }
  }

  lemma AbsentAfter(s: string, c: char, i: nat)
    requires i < |s| && c !in s[i + 1..]
    ensures forall k :: i < k < |s| ==> s[k] != c
  {
    forall k | i < k < |s| ensures s[k] != c {
      assert s[i + 1..][k - i - 1] == s[k];
    }
  }

  /** Whenever both brackets occur, the span that gets decoded exists. */
  lemma BracketsExist(text: string)
    requires '[' in text && ']' in text
    ensures exists lo, hi :: Brackets(text, lo, hi)
  {
    assert Brackets(text, Find(text, '['), RFind(text, ']'));
  }

  /**
   * Noise around the list is ignored: prose before the first `[` and after the
   * last `]` does not change the result, which is the decoding of the list alone.
   */
  lemma NoiseIgnored(prefix: string, payload: string, suffix: string, decode: Decoder)
    requires '[' !in prefix && ']' !in suffix
    requires |payload| >= 2 && payload[0] == '[' && payload[|payload| - 1] == ']'
    ensures ExtractJsonList(prefix + payload + suffix, decode) == decode(payload)
    ensures ExtractJsonList(prefix + payload + suffix, decode) == ExtractJsonList(payload, decode)
  {
    var text := prefix + payload + suffix;
    var lo, hi := |prefix|, |prefix| + |payload| - 1;
    assert text[..lo] == prefix;
    assert text[hi + 1..] == suffix;
    assert Brackets(text, lo, hi);
    assert Slice(text, lo, hi + 1) == payload;
    assert payload[..0] == [];
    assert payload[|payload|..] == [];
    assert Brackets(payload, 0, |payload| - 1);
    assert Slice(payload, 0, |payload|) == payload;
  }

  /**
   * No whole-text fallback once both brackets occur: a span that does not
   * decode gives `None` even when the whole text would decode.
   */
  lemma UndecodableSpanFails(text: string, decode: Decoder, lo: int, hi: int)
    requires Brackets(text, lo, hi)
    requires decode(Slice(text, lo, hi + 1)) == None
    ensures ExtractJsonList(text, decode) == None
  {
  }

  /**
   * A `]` that comes only before the first `[` gives an empty span, and an empty
   * string does not decode, so the result is `None`.
   */
  lemma ReversedBracketsFail(text: string, decode: Decoder, lo: int, hi: int)
    requires Brackets(text, lo, hi) && hi < lo
    requires decode([]) == None
    ensures ExtractJsonList(text, decode) == None
  {
  }
}
