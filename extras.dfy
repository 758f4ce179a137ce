/**
 * The extras facet: a shareable URL for the current song, derived from the `data-id` of
 * the album or artist link. Both the behaviour as written and a corrected one are modelled.
 */
module Extras {
  import opened Wrappers
  import opened Strings

  const UrlTemplate := "https://play.google.com/music/m/"

  /** JavaScript's `s.substring(start, end)`: both ends clamped to 0..|s|, swapped when reversed. */
  function Substring(s: string, start: int, end: int): (r: string)
    ensures |r| <= |s|
  {
    var a := if start < 0 then 0 else if start > |s| then |s| else start;
    var b := if end < 0 then 0 else if end > |s| then |s| else end;
    if a <= b then s[a..b] else s[b..a]
  }

  lemma SlashMatch(s: string, i: int)
    ensures MatchesAt(s, "/", i) <==> 0 <= i < |s| && s[i] == '/'
  {
    if 0 <= i < |s| {
      assert s[i..i + 1] == [s[i]];
    }
  }

  /**
   * `parseID`: the part of the id before its first '/'. An id without '/' gives the empty
   * string (`substring(0, -1)` is empty).
   */
  function ParseId(id: string): (r: string)
    ensures '/' in id ==> |r| < |id| && id[..|r|] == r && id[|r|] == '/' && '/' !in r
    ensures '/' !in id ==> r == ""
  {
    var i := IndexOf(id, "/");
    SlashMatch(id, i);
    assert forall j :: 0 <= j < |id| && id[j] == '/' ==> MatchesAt(id, "/", j) by {
      forall j | 0 <= j < |id| && id[j] == '/' ensures MatchesAt(id, "/", j) { SlashMatch(id, j); }
    }
    assert i != -1 ==> forall j :: 0 <= j < i ==> id[j] != '/' by {
      forall j | i != -1 && 0 <= j < i ensures id[j] != '/' { SlashMatch(id, j); }
    }
    Substring(id, 0, i)
  }

  /** The id a link contributes: none when the link element is absent. */
  function LinkId(link: Option<string>): string
  {
    match link
    case None => ""
    case Some(id) => ParseId(id)
  }

  /**
   * `getSongURL` as written. `albumLink` and `artistLink` are the `data-id` of the
   * `.player-album` and `.player-artist` elements, `None` when the element is absent. Only
   * the case where both are absent is guarded; when exactly one is absent the code reads
   * `dataset` of `null` and throws.
   */
  function SongUrlAsWritten(albumLink: Option<string>, artistLink: Option<string>): (r: Result<Option<string>, string>)
    ensures r.Failure? <==> albumLink.None? != artistLink.None?
  {
    if albumLink.None? && artistLink.None? then Success(None)
    else if albumLink.None? || artistLink.None? then Failure("TypeError: Cannot read property 'dataset' of null")
    else
      var albumId := ParseId(albumLink.value);
      var artistId := ParseId(artistLink.value);
      Success(if albumId != "" then Some(UrlTemplate + albumId)
              else if artistId != "" then Some(UrlTemplate + artistId)
              else None)
  }

  /** A page showing an album link but no artist link makes `getSongURL` throw. */
  lemma SongUrlAsWrittenThrowsWithOneLink()
    ensures SongUrlAsWritten(Some("Babc/def"), None).Failure?
    ensures SongUrl(Some("Babc/def"), None) == Some(UrlTemplate + "Babc")
  {
    ReplaceAfterPrefix("Babc", "/", "def", "");
    assert "Babc" + "/" + "def" == "Babc/def";
    assert ParseId("Babc/def") == "Babc";
  }

  /**
   * `getSongURL` as intended: an absent link contributes no id; the album's id is preferred,
   * the artist's is the fallback, and there is no URL when neither gives one. A URL is the
   * template followed by a non-empty id without '/'.
   */
  function SongUrl(albumLink: Option<string>, artistLink: Option<string>): (r: Option<string>)
    ensures LinkId(albumLink) != "" ==> r == Some(UrlTemplate + LinkId(albumLink))
    ensures LinkId(albumLink) == "" && LinkId(artistLink) != "" ==> r == Some(UrlTemplate + LinkId(artistLink))
    ensures r.None? <==> LinkId(albumLink) == "" && LinkId(artistLink) == ""
    ensures r.Some? ==> (StartsWith(r.value, UrlTemplate) && |r.value| > |UrlTemplate|
                         && '/' !in r.value[|UrlTemplate|..])
  {
    var albumId := LinkId(albumLink);
    var artistId := LinkId(artistLink);
    if albumId != "" then
      assert (UrlTemplate + albumId)[|UrlTemplate|..] == albumId;
      Some(UrlTemplate + albumId)
    else if artistId != "" then
      assert (UrlTemplate + artistId)[|UrlTemplate|..] == artistId;
      Some(UrlTemplate + artistId)
    else None
  }

  /** Wherever the code as written returns, the corrected definition returns the same URL. */
  lemma SongUrlAgreesWhereDefined(albumLink: Option<string>, artistLink: Option<string>)
    requires SongUrlAsWritten(albumLink, artistLink).Success?
    ensures SongUrl(albumLink, artistLink) == SongUrlAsWritten(albumLink, artistLink).value
  {
  }
}
