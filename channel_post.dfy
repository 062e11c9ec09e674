/**
 * The `channel_post` filter: a post joins the catalog only when its chat id,
 * rendered as a string, equals the configured source channel id and the post
 * carries a video.
 */
module ChannelPost {

  /** The fields of an incoming channel post the handler reads. */
  datatype Post = Post(chatId: int, messageId: int, hasVideo: bool)

  predicate IsDigit(c: char) {
    '0' <= c <= '9'
  }

  function DigitChar(d: int): (c: char)
    requires 0 <= d < 10
    ensures IsDigit(c)
  {
    ('0' as int + d) as char
  }

  /** The decimal digits of `n`, most significant first, without leading zeros. */
  function NatDigits(n: nat): (s: string)
    ensures |s| >= 1
    ensures forall i :: 0 <= i < |s| ==> IsDigit(s[i])
    ensures s[0] == '0' <==> n == 0
    ensures n == 0 ==> s == "0"
    decreases n
  {
    if n < 10 then [DigitChar(n)] else NatDigits(n / 10) + [DigitChar(n % 10)]
  }

  /** `chat.id.toString()` for an integer chat id: its decimal digits, after a '-' when it is negative. */
  function DecimalString(n: int): (s: string)
    ensures |s| >= 1
    ensures s[0] == '-' <==> n < 0
    ensures forall i :: 0 <= i < |s| && (i > 0 || n >= 0) ==> IsDigit(s[i])
    ensures s[0] == '0' ==> s == "0"
    ensures n < 0 ==> |s| >= 2 && s[1] != '0'
  {
    if n < 0 then "-" + NatDigits(-n) else NatDigits(n)
  }

  /** The value of a string of decimal digits. */
  function DigitsValue(s: string): int
  {
    if s == [] then 0 else DigitsValue(s[..|s| - 1]) * 10 + (s[|s| - 1] as int - '0' as int)
  }

  /** Reads back a decimal rendering: an optional '-' followed by digits. */
  function ParseDecimal(s: string): int
  {
    if |s| > 0 && s[0] == '-' then -DigitsValue(s[1..]) else DigitsValue(s)
  }

  lemma {:induction false} NatDigitsValue(n: nat)
    ensures DigitsValue(NatDigits(n)) == n
    decreases n
  {
    if n >= 10 {
      NatDigitsValue(n / 10);
      var s := NatDigits(n);
      assert s[..|s| - 1] == NatDigits(n / 10);
    }
  }

  /** Reading back the rendering of a chat id gives the chat id. */
  lemma DecimalRoundTrip(n: int)
    ensures ParseDecimal(DecimalString(n)) == n
  {
    if n < 0 {
      NatDigitsValue(-n);
      assert DecimalString(n)[1..] == NatDigits(-n);
    } else {
      NatDigitsValue(n);
      assert IsDigit(NatDigits(n)[0]);
    }
  }

  /** Two chat ids render to the same string exactly when they are the same number. */
  lemma DecimalStringInjective(a: int, b: int)
    ensures DecimalString(a) == DecimalString(b) <==> a == b
  {
    if DecimalString(a) == DecimalString(b) {
      DecimalRoundTrip(a);
      DecimalRoundTrip(b);
    }
  }

  /** The `channel_post` guard: the post comes from the configured source channel and has a video. */
  predicate IsSourceVideo(post: Post, sourceChannelId: string)
    ensures IsSourceVideo(post, sourceChannelId) ==> post.hasVideo
    ensures IsSourceVideo(post, sourceChannelId) ==> ParseDecimal(sourceChannelId) == post.chatId
  {
    DecimalRoundTrip(post.chatId);
    DecimalString(post.chatId) == sourceChannelId && post.hasVideo
  }

  /**
   * With the source channel configured as the decimal rendering of a chat id,
   * the guard admits exactly the video posts of that chat.
   */
  lemma SourceVideoByNumber(post: Post, channelId: int)
    ensures IsSourceVideo(post, DecimalString(channelId)) <==> post.chatId == channelId && post.hasVideo
  {
    DecimalStringInjective(post.chatId, channelId);
  }

  /** A configured id that reads as a number but is not its canonical rendering (e.g. "+5", "007") admits no post. */
  lemma NonCanonicalSourceAdmitsNothing(post: Post, sourceChannelId: string)
    requires DecimalString(ParseDecimal(sourceChannelId)) != sourceChannelId
    ensures !IsSourceVideo(post, sourceChannelId)
  {
  }
}
