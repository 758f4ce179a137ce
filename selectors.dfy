/**
 * The selector registry: the CSS selectors, element ids, classes and `data-id` values by
 * which the library finds the player's controls on the page.
 */
module Selectors {

  // Track information
  const AlbumArtId := "playingAlbumArt"
  const AlbumSelector := ".player-album"
  const ArtistId := "player-artist"
  const ContainerId := "playerSongInfo"
  const InfoWrapperClass := "now-playing-info-wrapper"
  const TitleId := "player-song-title"

  // Buttons
  const ForwardButtonSelector := "#player sj-icon-button[data-id=\"forward\"]"
  const PlayPauseButtonSelector := "#player sj-icon-button[data-id=\"play-pause\"]"
  const PlayPauseDataId := "play-pause"
  const PlayingClass := "playing"
  const RepeatDataId := "repeat"
  const RepeatButtonSelector := "#player sj-icon-button[data-id=\"repeat\"]"
  const RewindButtonSelector := "#player sj-icon-button[data-id=\"rewind\"]"
  const ShuffleDataId := "shuffle"
  const ShuffleButtonSelector := "#player sj-icon-button[data-id=\"shuffle\"]"

  // Rating controls (the rating container only exists while a song is loaded)
  const RatingContainerSelector := "#playerSongInfo"
  // The four thumb selectors are written as concatenations of the same pieces; each
  // spells out the same characters as the library's literal.
  const ThumbControls := "#player " + ".player-rating-container " + "[icon^=\"sj:thumb-\"]"
  const ThumbsSelector := ThumbControls + "[data-rating]"
  const ThumbsUpSelector := ThumbControls + "[data-rating=\"" + "5" + "\"]"
  const ThumbsDownSelector := ThumbControls + "[data-rating=\"" + "1" + "\"]"
  const ThumbSelectorFormat := ThumbControls + "[data-rating=\"" + "{rating}" + "\"]"

  // Sliders
  const PlaybackSliderId := "material-player-progress"
  const VolumeSliderId := "material-vslider"
}
