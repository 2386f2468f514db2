/**
 * `bot/music/music.py`: the music player's state. The cog keeps the queue of
 * song URLs and the loop flag; `play` extends the queue, `loop` flips the
 * flag, `stop` resets both. Playback itself, the voice connection and the
 * media lookup are outside the model: the media list of a URL and the voice
 * state of the bot and the caller arrive as parameters.
 */
module Music {
  import opened Wrappers
  import opened Text
  import opened Constants

  /** The bot's voice client: the channel it is connected to and whether it is playing. */
  datatype VoiceClient = VoiceClient(channel: int, playing: bool)

  /** `ctx.author.voice.channel` of a caller outside any voice channel. */
  datatype AttributeError = AttributeError

  // ---------------------------------------------------------- queue rules

  /**
   * The queue `play_music` leaves: when the queue holds exactly 300 songs its
   * first `len(media_list)` entries are dropped; the new songs follow in order.
   */
  function QueuedAfter(queue: seq<string>, media: seq<string>): (r: seq<string>)
    ensures |r| >= |media| && r[|r| - |media|..] == media
    ensures |queue| != LimitSongQueue ==> r[..|r| - |media|] == queue
    ensures |queue| == LimitSongQueue ==>
      r[..|r| - |media|] == queue[if |media| < |queue| then |media| else |queue|..]
    ensures |queue| == LimitSongQueue && |media| <= LimitSongQueue ==> |r| == LimitSongQueue
  {
    var kept := if |queue| != LimitSongQueue then queue else if |media| < |queue| then queue[|media|..] else [];
    assert (kept + media)[..|kept|] == kept;
    kept + media
  }

  /**
   * The cap only fires at exactly 300: from 299 songs, adding two leaves 301.
   */
  lemma QueueOvershootsLimit(queue: seq<string>, media: seq<string>)
    requires |queue| == LimitSongQueue - 1 && |media| == 2
    ensures |QueuedAfter(queue, media)| == LimitSongQueue + 1
  {
  }

  /** Once over the limit, the queue is never trimmed again and only grows. */
  lemma {:induction false} QueueOverLimitGrows(queue: seq<string>, media: seq<string>)
    requires |queue| > LimitSongQueue
    ensures |QueuedAfter(queue, media)| == |queue| + |media|
  {
    assert QueuedAfter(queue, media) == queue + media;
  }

  /**
   * The queue with the cap the limit evidently intends: old and new songs in
   * order, the oldest dropped so that at most 300 remain.
   */
  function CappedQueue(queue: seq<string>, media: seq<string>): (r: seq<string>)
    ensures |r| <= LimitSongQueue
    ensures |queue| + |media| <= LimitSongQueue ==> r == queue + media
    ensures |queue| + |media| > LimitSongQueue ==> |r| == LimitSongQueue
    ensures |r| <= |queue + media| && (queue + media)[|queue + media| - |r|..] == r
    ensures |media| <= LimitSongQueue ==> r[|r| - |media|..] == media
  {
    var all := queue + media;
    if |all| > LimitSongQueue then
      var r := all[|all| - LimitSongQueue..];
      assert |media| <= LimitSongQueue ==> r[|r| - |media|..] == all[|all| - |media|..];
      r
    else all
  }

  // ------------------------------------------------------------ URL check

  /** Characters `urlsplit` strips from the front: C0 controls and space. */
  predicate IsC0OrSpace(c: char) { c <= ' ' }

  function LStripC0(s: string): (r: string)
    ensures |r| <= |s| && EndsWith(s, r)
    ensures r != [] ==> !IsC0OrSpace(r[0])
    ensures s != [] && !IsC0OrSpace(s[0]) ==> r == s
  {
    if s != [] && IsC0OrSpace(s[0]) then LStripC0(s[1..]) else s
  }

  /** `urlsplit` deletes tabs and line breaks anywhere in the URL. */
  function RemoveUnsafe(s: string): (r: string)
    ensures '\t' !in r && '\r' !in r && '\n' !in r
    ensures ('\t' !in s && '\r' !in s && '\n' !in s) ==> r == s
  {
    if s == [] then []
    else if s[0] in "\t\r\n" then RemoveUnsafe(s[1..])
    else [s[0]] + RemoveUnsafe(s[1..])
  }

  predicate IsAsciiLetter(c: char) { ('a' <= c <= 'z') || ('A' <= c <= 'Z') }

  /** `urllib.parse.scheme_chars` */
  predicate IsSchemeChar(c: char) { IsAsciiLetter(c) || IsDigit(c) || c == '+' || c == '-' || c == '.' }

  /** A scheme precedes the first ':': it is non-empty, starts with a letter and has only scheme characters. */
  predicate HasScheme(url: string) {
    var i := Find(url, ":");
    i > 0 && IsAsciiLetter(url[0]) && forall k :: 0 <= k < i ==> IsSchemeChar(url[k])
  }

  /** What follows the scheme and its ':', or the whole text without a scheme. */
  function AfterScheme(url: string): string {
    if HasScheme(url) then url[Find(url, ":") + 1..] else url
  }

  /** The first index at or after 2 of '/', '?' or '#', or the length. */
  function NetlocEnd(rest: string, i: nat): (r: nat)
    requires 2 <= i <= |rest|
    ensures i <= r <= |rest|
    ensures forall k :: i <= k < r ==> rest[k] !in "/?#"
    ensures r < |rest| ==> rest[r] in "/?#"
    decreases |rest| - i
  {
    if i == |rest| || rest[i] in "/?#" then i else NetlocEnd(rest, i + 1)
  }

  /** The netloc of what follows the scheme: after "//", up to the path, query or fragment. */
  function NetlocOf(rest: string): (r: string)
    ensures '/' !in r && '?' !in r && '#' !in r
  {
    if StartsWith(rest, "//") then
      var e := NetlocEnd(rest, 2);
      assert forall k :: 0 <= k < e - 2 ==> rest[2..e][k] == rest[k + 2];
      rest[2..e]
    else ""
  }

  /** `urlparse(url).netloc` */
  function Netloc(url: string): (r: string)
    ensures '/' !in r && '?' !in r && '#' !in r
  {
    NetlocOf(AfterScheme(RemoveUnsafe(LStripC0(url))))
  }

  /** The domain `_check_if_supported_url` tests: the netloc without a leading "www.". */
  function Domain(netloc: string): string {
    if StartsWith(netloc, "www.") then netloc[4..] else netloc
  }

  /** `_check_if_supported_url`: only YouTube is supported; anything else is a BadArgument. */
  predicate IsSupportedUrl(url: string) {
    Domain(Netloc(url)) in ["youtube.com"]
  }

  /** The domain is youtube.com exactly for the netlocs youtube.com and www.youtube.com. */
  lemma DomainIsYoutube(netloc: string)
    ensures Domain(netloc) in ["youtube.com"] <==> netloc == "youtube.com" || netloc == "www.youtube.com"
  {
    assert StartsWith(netloc, "www.") ==> netloc == netloc[..4] + netloc[4..];
    assert "youtube.com"[0] == 'y' && "www."[0] == 'w';
    assert "www.youtube.com"[..4] == "www." && "www.youtube.com"[4..] == "youtube.com";
  }

  /** Exactly the URLs whose host part is youtube.com or www.youtube.com are accepted. */
  lemma SupportedUrlHosts(url: string)
    ensures IsSupportedUrl(url) <==> Netloc(url) == "youtube.com" || Netloc(url) == "www.youtube.com"
  {
    DomainIsYoutube(Netloc(url));
  }

  /** A scheme, its ':' and the rest: the scheme is split off. */
  lemma AfterSchemeSplits(scheme: string, rest: string)
    requires scheme != [] && IsAsciiLetter(scheme[0]) && forall k :: 0 <= k < |scheme| ==> IsSchemeChar(scheme[k])
    ensures AfterScheme(scheme + ":" + rest) == rest
  {
    var url := scheme + ":" + rest;
    assert OccursAt(url, ":", |scheme|);
    forall j | 0 <= j < |scheme| ensures !OccursAt(url, ":", j) {
      assert url[j] == scheme[j];
    }
    FindFirst(url, ":");
    assert Find(url, ":") == |scheme|;
    assert forall k :: 0 <= k < |scheme| ==> url[k] == scheme[k];
    assert url[|scheme| + 1..] == rest;
  }

  /** "//", a host and a path: the netloc is the host. */
  lemma NetlocOfHost(host: string, path: string)
    requires forall k :: 0 <= k < |host| ==> host[k] !in "/?#"
    requires path == [] || path[0] in "/?#"
    ensures NetlocOf("//" + host + path) == host
  {
    var rest := "//" + host + path;
    var e := NetlocEnd(rest, 2);
    assert forall k :: 0 <= k < |host| ==> rest[2 + k] == host[k];
    assert path != [] ==> rest[2 + |host|] == path[0];
    assert rest[2..e] == host;
  }

  /**
   * A URL written as scheme, "://", host and path has that host as its netloc:
   * the check sees the host the member typed.
   */
  lemma NetlocOfComposedUrl(scheme: string, host: string, path: string)
    requires scheme != [] && IsAsciiLetter(scheme[0]) && forall k :: 0 <= k < |scheme| ==> IsSchemeChar(scheme[k])
    requires forall k :: 0 <= k < |host| ==> host[k] !in "/?#" && host[k] > ' '
    requires path == [] || path[0] in "/?#"
    requires '\t' !in path && '\r' !in path && '\n' !in path
    ensures Netloc(scheme + "://" + host + path) == host
  {
    var rest := "//" + host + path;
    var url := scheme + ":" + rest;
    assert scheme + "://" + host + path == url;
    assert url[0] == scheme[0];
    assert LStripC0(url) == url;
    ComposedUrlSafe(scheme, host, path);
    assert RemoveUnsafe(url) == url;
    AfterSchemeSplits(scheme, rest);
    NetlocOfHost(host, path);
  }

  /** Scheme characters, "://", printable host characters and a path without them: no tab or line break. */
  lemma ComposedUrlSafe(scheme: string, host: string, path: string)
    requires forall k :: 0 <= k < |scheme| ==> IsSchemeChar(scheme[k])
    requires forall k :: 0 <= k < |host| ==> host[k] > ' '
    requires '\t' !in path && '\r' !in path && '\n' !in path
    ensures var url := scheme + ":" + ("//" + host + path); '\t' !in url && '\r' !in url && '\n' !in url
  {
    var url := scheme + ":" + ("//" + host + path);
    forall k | 0 <= k < |url| ensures url[k] != '\t' && url[k] != '\r' && url[k] != '\n' {
      if k < |scheme| {
        assert url[k] == scheme[k];
      } else if k < |scheme| + 3 {
      } else if k < |scheme| + 3 + |host| {
        assert url[k] == host[k - |scheme| - 3];
      } else {
        assert url[k] == path[k - |scheme| - 3 - |host|];
      }
    }
  }

  // ------------------------------------------------------------------ cog

  /** `MusicCog`: the song queue and the loop flag. */
  class MusicCog {
    var songQueue: seq<string>
    var loopMode: bool

    /** The queue respects the song limit. */
    predicate Valid()
      reads this
    {
      |songQueue| <= LimitSongQueue
    }

    /** A new cog has an empty queue and loops nothing. */
    constructor ()
      ensures songQueue == [] && !loopMode
      ensures Valid()
    {
      songQueue := [];
      loopMode := false;
    }

    /** The queue update of `play_music`, as written. */
    method QueueSongs(mediaList: seq<string>)
      modifies this`songQueue
      ensures songQueue == QueuedAfter(old(songQueue), mediaList)
    {
      if |songQueue| == LimitSongQueue {
        songQueue := if |mediaList| < |songQueue| then songQueue[|mediaList|..] else [];
      }
      ghost var kept := songQueue;
      var i := 0;
      while i < |mediaList|
        invariant 0 <= i <= |mediaList|
        invariant songQueue == kept + mediaList[..i]
      {
        songQueue := songQueue + [mediaList[i]];
        i := i + 1;
        assert mediaList[..i] == mediaList[..i - 1] + [mediaList[i - 1]];
      }
      assert mediaList[..i] == mediaList;
    }

    /** The queue update with the cap applied whatever the queue's length: the limit holds afterwards. */
    method QueueSongsCapped(mediaList: seq<string>)
      modifies this`songQueue
      ensures Valid()
      ensures songQueue == CappedQueue(old(songQueue), mediaList)
    {
      ghost var before := songQueue;
      var i := 0;
      while i < |mediaList|
        invariant 0 <= i <= |mediaList|
        invariant songQueue == before + mediaList[..i]
      {
        songQueue := songQueue + [mediaList[i]];
        i := i + 1;
        assert mediaList[..i] == mediaList[..i - 1] + [mediaList[i - 1]];
      }
      assert mediaList[..i] == mediaList;
      if |songQueue| > LimitSongQueue {
        songQueue := songQueue[|songQueue| - LimitSongQueue..];
      }
    }

    /**
     * `loop_music`: while the bot plays and the caller is in its channel the
     * flag flips; a caller outside any voice channel fails on the lookup of
     * its channel; otherwise nothing happens. The result says whether it flipped.
     */
    method LoopMusic(voiceClient: Option<VoiceClient>, authorChannel: Option<int>) returns (r: Result<bool, AttributeError>)
      modifies this`loopMode
      ensures r.Err? <==> voiceClient.Some? && voiceClient.value.playing && authorChannel.None?
      ensures r == Ok(true) <==>
        voiceClient.Some? && voiceClient.value.playing && authorChannel == Some(voiceClient.value.channel)
      ensures loopMode == (if r == Ok(true) then !old(loopMode) else old(loopMode))
    {
      if voiceClient.Some? && voiceClient.value.playing {
        if authorChannel.None? {
          return Err(AttributeError);
        }
        if voiceClient.value.channel == authorChannel.value {
          loopMode := !loopMode;
          return Ok(true);
        }
      }
      r := Ok(false);
    }

    /**
     * `stop_music`: when the bot is connected to the caller's channel it
     * disconnects and the cog is as new; a caller outside any voice channel
     * fails; otherwise nothing changes. The result says whether it stopped.
     */
    method StopMusic(voiceClient: Option<VoiceClient>, authorChannel: Option<int>) returns (r: Result<bool, AttributeError>)
      modifies this`songQueue, this`loopMode
      ensures r.Err? <==> voiceClient.Some? && authorChannel.None?
      ensures r == Ok(true) <==> voiceClient.Some? && authorChannel == Some(voiceClient.value.channel)
      ensures r == Ok(true) ==> songQueue == [] && !loopMode
      ensures r != Ok(true) ==> songQueue == old(songQueue) && loopMode == old(loopMode)
      ensures old(Valid()) ==> Valid()
    {
      if voiceClient.Some? {
        if authorChannel.None? {
          return Err(AttributeError);
        }
        if voiceClient.value.channel == authorChannel.value {
          songQueue := [];
          loopMode := false;
          return Ok(true);
        }
      }
      r := Ok(false);
    }
  }
}
