/** Channel names: the known-channel check `validate_channel`
    (scraper.py:231-233) and the numeric shortcut of the interactive channel
    prompt (scraper.py:300-309). Case mapping is ASCII-only here. */
module Channels {

  /** The keys of `POPULAR_CHANNELS`, in their insertion order (scraper.py:27-48). */
  const PopularChannels: seq<string> := [
    "1live", "antenne-bayern", "bayern-1", "bayern-3", "bigfm", "dasding",
    "deutschlandfunk", "hit-radio-ffh", "hr1", "hr3", "kiss-fm", "klassik-radio",
    "mdr-jump", "ndr-2", "n-joy", "radio-hamburg", "swr1", "swr3", "swr4", "wdr2"]

  /** The eleven display lines of `ALL_CHANNELS` (scraper.py:51-63). They are
      named so that the membership proofs below can each look at one line:
      reasoning about one 70-name literal, or about all twenty popular names
      at once, is too expensive for the verifier, so the popular channels are
      checked two at a time. */
  const ChannelRow1: seq<string> := ["1live", "1live-diggi", "80s80s", "90s90s", "absolut-radio", "antenne-ac"]
  const ChannelRow2: seq<string> := ["antenne-bayern", "b5-aktuell", "baden-fm", "bayern-1", "bayern-2", "bayern-3"]
  const ChannelRow3: seq<string> := ["bayernwelle", "bigfm", "br-heimat", "br-klassik", "brocken-fm", "dasding"]
  const ChannelRow4: seq<string> := ["deutschlandfunk", "deutschlandfunk-kultur", "deutschlandfunk-nova", "die-neue-107-7"]
  const ChannelRow5: seq<string> := ["energy-muenchen", "ffh", "flex-fm", "gong-96-3", "harmonie-fm", "hit-radio-ffh"]
  const ChannelRow6: seq<string> := ["hitradio-rtl", "hr1", "hr2", "hr3", "hr4", "iloveradio", "jam-fm", "klassik-radio"]
  const ChannelRow7: seq<string> := ["kiss-fm", "landeswelle", "mdr-jump", "mdr-sachsen", "mdr-thueringen", "metropol-fm"]
  const ChannelRow8: seq<string> := ["ndr-1-niedersachsen", "ndr-1-welle-nord", "ndr-2", "ndr-info", "n-joy", "nordwestradio"]
  const ChannelRow9: seq<string> := ["radio-7", "radio-21", "radio-bob", "radio-hamburg", "radio-paloma", "radio-salue"]
  const ChannelRow10: seq<string> := ["radioeins", "rock-antenne", "rockland-radio", "rsh", "rt1", "star-fm", "sunshine-live"]
  const ChannelRow11: seq<string> := ["swr1", "swr2", "swr3", "swr4", "wdr2", "wdr3", "wdr4", "wdr5", "you-fm"]

  /** `ALL_CHANNELS`: its display lines, in order. */
  const AllChannels: seq<string> :=
    ChannelRow1 + ChannelRow2 + ChannelRow3 + ChannelRow4 + ChannelRow5 + ChannelRow6 +
    ChannelRow7 + ChannelRow8 + ChannelRow9 + ChannelRow10 + ChannelRow11

  /** The channel the prompt falls back to for an out-of-range number. */
  const DefaultChannel: string := "swr4"

  predicate IsUpper(c: char) {
    'A' <= c <= 'Z'
  }

  function LowerChar(c: char): (d: char)
    ensures !IsUpper(d)
    ensures !IsUpper(c) ==> d == c
  {
    if IsUpper(c) then (c as int + 32) as char else c
  }

  /** `str.lower()` on ASCII letters. */
  function Lower(s: string): (t: string)
    ensures |t| == |s|
    ensures forall i :: 0 <= i < |s| ==> t[i] == LowerChar(s[i])
  {
    if s == [] then [] else [LowerChar(s[0])] + Lower(s[1..])
  }

  /** `validate_channel`: the lower-cased name is one of the known channels. */
  predicate ValidateChannel(channel: string) {
    Lower(channel) in AllChannels
  }

  /** Lower-casing is idempotent, so validation does not depend on case. */
  lemma ValidateChannelIgnoresCase(channel: string)
    ensures Lower(Lower(channel)) == Lower(channel)
    ensures ValidateChannel(Lower(channel)) == ValidateChannel(channel)
  {
  }

  /** A name without upper-case letters is its own lower-case form. */
  lemma LowerOfLower(s: string)
    requires forall c :: c in s ==> !IsUpper(c)
    ensures Lower(s) == s
  {
  }

  /** A popular channel found on one of the display lines of `ALL_CHANNELS`
      passes `validate_channel`, being lower-case already. */
  lemma PopularOnRow(j: int, row: seq<string>)
    requires 0 <= j < |PopularChannels|
    requires PopularChannels[j] in row
    requires row == ChannelRow1 || row == ChannelRow2 || row == ChannelRow3 ||
             row == ChannelRow4 || row == ChannelRow5 || row == ChannelRow6 ||
             row == ChannelRow7 || row == ChannelRow8 || row == ChannelRow9 ||
             row == ChannelRow10 || row == ChannelRow11
    requires forall c :: c in PopularChannels[j] ==> !IsUpper(c)
    ensures ValidateChannel(PopularChannels[j])
  {
    LowerOfLower(PopularChannels[j]);
  }

  lemma PopularPairKnown1(i: int)
    requires i == 0 || i == 1
    ensures ValidateChannel(PopularChannels[i])
  {
    if i == 0 {
      PopularOnRow(0, ChannelRow1);
    } else {
      PopularOnRow(1, ChannelRow2);
    }
  }

  lemma PopularPairKnown2(i: int)
    requires i == 2 || i == 3
    ensures ValidateChannel(PopularChannels[i])
  {
    if i == 2 {
      PopularOnRow(2, ChannelRow2);
    } else {
      PopularOnRow(3, ChannelRow2);
    }
  }

  lemma PopularPairKnown3(i: int)
    requires i == 4 || i == 5
    ensures ValidateChannel(PopularChannels[i])
  {
    if i == 4 {
      PopularOnRow(4, ChannelRow3);
    } else {
      PopularOnRow(5, ChannelRow3);
    }
  }

  lemma PopularPairKnown4(i: int)
    requires i == 6 || i == 7
    ensures ValidateChannel(PopularChannels[i])
  {
    if i == 6 {
      PopularOnRow(6, ChannelRow4);
    } else {
      PopularOnRow(7, ChannelRow5);
    }
  }

  lemma PopularPairKnown5(i: int)
    requires i == 8 || i == 9
    ensures ValidateChannel(PopularChannels[i])
  {
    if i == 8 {
      PopularOnRow(8, ChannelRow6);
    } else {
      PopularOnRow(9, ChannelRow6);
    }
  }

  lemma PopularPairKnown6(i: int)
    requires i == 10 || i == 11
    ensures ValidateChannel(PopularChannels[i])
  {
    if i == 10 {
      PopularOnRow(10, ChannelRow7);
    } else {
      PopularOnRow(11, ChannelRow6);
    }
  }

  lemma PopularPairKnown7(i: int)
    requires i == 12 || i == 13
    ensures ValidateChannel(PopularChannels[i])
  {
    if i == 12 {
      PopularOnRow(12, ChannelRow7);
    } else {
      PopularOnRow(13, ChannelRow8);
    }
  }

  lemma PopularPairKnown8(i: int)
    requires i == 14 || i == 15
    ensures ValidateChannel(PopularChannels[i])
  {
    if i == 14 {
      PopularOnRow(14, ChannelRow8);
    } else {
      PopularOnRow(15, ChannelRow9);
    }
  }

  lemma PopularPairKnown9(i: int)
    requires i == 16 || i == 17
    ensures ValidateChannel(PopularChannels[i])
  {
    if i == 16 {
      PopularOnRow(16, ChannelRow11);
    } else {
      PopularOnRow(17, ChannelRow11);
    }
  }

  lemma PopularPairKnown10(i: int)
    requires i == 18 || i == 19
    ensures ValidateChannel(PopularChannels[i])
  {
    if i == 18 {
      PopularOnRow(18, ChannelRow11);
    } else {
      PopularOnRow(19, ChannelRow11);
    }
  }

  /** The popular channel at position `i` passes `validate_channel`; the
      channels are taken two at a time to keep each proof small. */
  lemma PopularChannelIsKnown(i: int)
    requires 0 <= i < |PopularChannels|
    ensures ValidateChannel(PopularChannels[i])
  {
    if i < 2 {
      PopularPairKnown1(i);
    } else if i < 4 {
      PopularPairKnown2(i);
    } else if i < 6 {
      PopularPairKnown3(i);
    } else if i < 8 {
      PopularPairKnown4(i);
    } else if i < 10 {
      PopularPairKnown5(i);
    } else if i < 12 {
      PopularPairKnown6(i);
    } else if i < 14 {
      PopularPairKnown7(i);
    } else if i < 16 {
      PopularPairKnown8(i);
    } else if i < 18 {
      PopularPairKnown9(i);
    } else {
      PopularPairKnown10(i);
    }
  }

  /** Every popular channel, and the fallback, passes `validate_channel`. */
  lemma PopularChannelsAreKnown()
    ensures forall i :: 0 <= i < |PopularChannels| ==> ValidateChannel(PopularChannels[i])
    ensures ValidateChannel(DefaultChannel)
  {
    forall i | 0 <= i < |PopularChannels|
      ensures ValidateChannel(PopularChannels[i])
    {
      PopularChannelIsKnown(i);
    }
    assert DefaultChannel == PopularChannels[18];
  }

  predicate IsDigit(c: char) {
    '0' <= c <= '9'
  }

  /** `str.isdigit()` on ASCII: non-empty and digits only. */
  predicate IsDigits(s: string) {
    |s| > 0 && forall i :: 0 <= i < |s| ==> IsDigit(s[i])
  }

  /** `int(s)` for a string of decimal digits; leading zeros are allowed. */
  function DigitsValue(s: string): nat
    requires forall i :: 0 <= i < |s| ==> IsDigit(s[i])
  {
    if s == [] then 0
    else
      assert IsDigit(s[|s| - 1]);
      DigitsValue(s[..|s| - 1]) * 10 + (s[|s| - 1] as int - '0' as int)
  }

  /** The decimal numeral of `n`, as `str(n)` writes it. */
  function Numeral(n: nat): (s: string)
    ensures IsDigits(s)
    ensures |s| > 1 ==> s[0] != '0'
  {
    if n < 10 then [('0' as int + n) as char]
    else Numeral(n / 10) + [('0' as int + n % 10) as char]
  }

  /** Reading back a numeral gives the number. */
  lemma {:induction false} NumeralValue(n: nat)
    ensures DigitsValue(Numeral(n)) == n
  {
    var s := Numeral(n);
    if n >= 10 {
      NumeralValue(n / 10);
      assert s[..|s| - 1] == Numeral(n / 10);
    }
  }

  /** A leading zero does not change the value. */
  lemma {:induction false} LeadingZeroValue(s: string)
    requires forall i :: 0 <= i < |s| ==> IsDigit(s[i])
    ensures DigitsValue("0" + s) == DigitsValue(s)
  {
    if s != [] {
      var init := s[..|s| - 1];
      LeadingZeroValue(init);
      assert ("0" + s)[..|s|] == "0" + init;
    }
  }

  /** The channel a typed number selects: the popular channel at that
      1-based position, or `swr4` when there is none. */
  function NumberChoice(n: int): (channel: string)
    ensures channel in PopularChannels && ValidateChannel(channel)
    ensures 1 <= n <= |PopularChannels| ==> channel == PopularChannels[n - 1]
    ensures !(1 <= n <= |PopularChannels|) ==> channel == DefaultChannel
  {
    var idx := n - 1;
    PopularChannelsAreKnown();
    if 0 <= idx < |PopularChannels| then PopularChannels[idx] else DefaultChannel
  }

  /** The channel chosen at the interactive prompt: a number goes through
      `NumberChoice`; any other answer is taken as a channel name, lower-cased. */
  function ChannelChoice(choice: string): (channel: string)
    ensures IsDigits(choice) ==> ValidateChannel(channel) && channel == NumberChoice(DigitsValue(choice))
    ensures !IsDigits(choice) ==> channel == Lower(choice)
  {
    if IsDigits(choice) then NumberChoice(DigitsValue(choice)) else Lower(choice)
  }

  /** Typing the number `n` selects the n-th popular channel when there is
      one, and `swr4` otherwise. */
  lemma ChoiceOfNumber(n: nat)
    ensures 1 <= n <= |PopularChannels| ==> ChannelChoice(Numeral(n)) == PopularChannels[n - 1]
    ensures (n == 0 || n > |PopularChannels|) ==> ChannelChoice(Numeral(n)) == DefaultChannel
  {
    NumeralValue(n);
  }

  /** Leading zeros make no difference: "07" chooses what "7" chooses. */
  lemma ChoiceIgnoresLeadingZero(choice: string)
    requires IsDigits(choice)
    ensures ChannelChoice("0" + choice) == ChannelChoice(choice)
  {
    var z := "0" + choice;
    assert IsDigits(z) by {
      forall i | 0 <= i < |z|
        ensures IsDigit(z[i])
      {
        if i > 0 {
          assert z[i] == choice[i - 1];
        }
      }
    }
    LeadingZeroValue(choice);
  }
}
