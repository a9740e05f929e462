/**
 * The object-oriented implementation of the pipeline: a named playlist whose
 * list of songs `AddSong` and `AddSongs` append to, `Shuffle` and
 * `DistributePlaylist` reassign and `FormatForWriting` only reads; the static
 * `ShuffleSections` builds a new playlist.  A `null` song in the list is `None`.
 */
module Playlists {
  import opened Options
  import opened Songs
  import opened Arithmetic
  import opened Permutations
  import opened FisherYates
  import opened RoundRobin
  import opened Sections

  /** The text written for one entry of the list: nothing for a missing song. */
  function Formatted(song: Option<Song>): (r: Option<string>)
    ensures r.Some? <==> song.Some?
    ensures song.Some? ==> |r.value| == |song.value.songName| + 4 + |song.value.artist|
  {
    if song.None? then None else Some(song.value.ToString())
  }

  class Playlist {
    var name: string
    var songs: seq<Option<Song>>

    constructor ()
      ensures name == "Playlist" && songs == []
    {
      name := "Playlist";
      songs := [];
    }

    constructor Named(name: string)
      ensures this.name == name && songs == []
    {
      this.name := name;
      songs := [];
    }

    constructor WithSongs(songs: seq<Option<Song>>)
      ensures name == "Playlist" && this.songs == songs
    {
      name := "Playlist";
      this.songs := songs;
    }

    constructor NamedWithSongs(name: string, songs: seq<Option<Song>>)
      ensures this.name == name && this.songs == songs
    {
      this.name := name;
      this.songs := songs;
    }

    /** Appends one song (possibly a missing one) at the end. */
    method AddSong(song: Option<Song>)
      modifies this
      ensures songs == old(songs) + [song]
      ensures name == old(name)
    {
      songs := songs + [song];
    }

    /** Appends the given songs at the end, one at a time, in order. */
    method AddSongs(list: seq<Option<Song>>)
      modifies this
      ensures songs == old(songs) + list
      ensures name == old(name)
    {
      for i := 0 to |list|
        invariant songs == old(songs) + list[..i]
        invariant name == old(name)
      {
        AddSong(list[i]);
        assert list[..i + 1] == list[..i] + [list[i]];
      }
    }

    /**
     * Appends the songs of another playlist.  Enumerating a list while
     * adding to it fails, so a non-empty playlist cannot be added to itself.
     */
    method AddSongsFrom(other: Playlist)
      requires other != this || other.songs == []
      modifies this
      ensures songs == old(songs) + old(other.songs)
      ensures name == old(name)
    {
      AddSongs(other.songs);
    }

    /**
     * The Fisher-Yates shuffle of the songs: while more than one position is
     * left, draw `k` below the counter, decrement the counter and swap the
     * song at the counter with the one at `k`.
     */
    method Shuffle(ks: seq<nat>)
      requires ValidDraws(ks, |songs|)
      modifies this
      ensures songs == Shuffled(old(songs), ks)
      ensures multiset(songs) == multiset(old(songs))
      ensures |old(songs)| <= 1 ==> songs == old(songs)
      ensures name == old(name)
    {
      var input := songs;
      var output := input;
      var n: nat := |output|;
      var j: nat := 0;
      while n > 1
        invariant n <= |output| == |input|
        invariant j <= |ks|
        invariant ValidDraws(ks[j..], n)
        invariant ShufflePrefix(output, ks[j..], n) == Shuffled(input, ks)
        invariant name == old(name)
      {
        ShuffleStep(output, ks, j, n);
        ghost var before := output;
        var k := ks[j];
        n := n - 1;
        var temp := output[n];
        output := output[n := output[k]];
        output := output[k := temp];
        assert output == Swap(before, n, k);
        j := j + 1;
      }
      ShuffledIsPermutation(input, ks);
      songs := output;
    }

    /**
     * Round-robin distribution: the list is `totalUsers` contributors' lists
     * of equal length, one after another, and song `i` moves to position
     * `i / songsPerUser + totalUsers * (i % songsPerUser)`.
     */
    method DistributePlaylist(totalUsers: int)
      requires totalUsers >= 1 && |songs| % totalUsers == 0
      modifies this
      ensures songs == Distributed(old(songs), totalUsers)
      ensures multiset(songs) == multiset(old(songs))
      ensures name == old(name)
    {
      var input := songs;
      var totalSongs := |input|;
      var output: seq<Option<Song>> := seq(totalSongs, _ => None);
      var songsPerUser := totalSongs / totalUsers;
      ExactQuotient(totalSongs, totalUsers);
      for i := 0 to totalSongs
        invariant PlacedBelow(output, input, totalUsers, songsPerUser, i)
        invariant name == old(name)
      {
        var user := i / songsPerUser;
        var songIndex := i % songsPerUser;
        PlaceNext(output, input, totalUsers, songsPerUser, i);
        output := output[user + totalUsers * songIndex := input[i]];
      }
      PlacedAllIsDistributed(output, input, totalUsers);
      DistributedIsPermutation(input, totalUsers);
      songs := output;
    }

    /**
     * The section shuffle: cuts `input` into windows of `totalUsers` songs,
     * shuffles a copy of each window in a playlist of its own and appends it
     * to the result; songs after the last whole window are not copied.
     * There is no result when `totalUsers < 1`.
     */
    static method ShuffleSections(input: seq<Option<Song>>, totalUsers: int, kss: seq<seq<nat>>)
      returns (result: Playlist?)
      requires totalUsers >= 1 ==> ValidSectionDraws(kss, |input| / totalUsers, totalUsers)
      ensures result == null <==> totalUsers < 1
      ensures result != null ==> fresh(result) && result.name == "Playlist"
      ensures result != null ==> result.songs == ShuffledSections(input, totalUsers, kss)
    {
      if totalUsers < 1 {
        return null;
      }
      var output: seq<Option<Song>> := [];
      var songsPerUser := |input| / totalUsers;
      QuotientBound(|input|, totalUsers);
      for i := 0 to songsPerUser
        invariant output == ShuffledWindows(input, totalUsers, kss, i)
      {
        MulMonotone(i + 1, songsPerUser, totalUsers);
        var subsection := input[i * totalUsers .. i * totalUsers + totalUsers];
        var subsectionPlaylist := new Playlist.WithSongs(subsection);
        subsectionPlaylist.Shuffle(kss[i]);
        output := output + subsectionPlaylist.songs;
      }
      result := new Playlist.WithSongs(output);
    }

    /** The section shuffle of a playlist's songs; the playlist itself is left as it is. */
    static method ShuffleSectionsOf(playlist: Playlist, totalUsers: int, kss: seq<seq<nat>>)
      returns (result: Playlist?)
      requires totalUsers >= 1 ==> ValidSectionDraws(kss, |playlist.songs| / totalUsers, totalUsers)
      ensures result == null <==> totalUsers < 1
      ensures result != null ==> fresh(result) && result.name == "Playlist"
      ensures result != null ==> result.songs == ShuffledSections(playlist.songs, totalUsers, kss)
    {
      result := ShuffleSections(playlist.songs, totalUsers, kss);
    }

    /** One line of text per entry, with no text where the song is missing. */
    method FormatForWriting() returns (strings: array<Option<string>>)
      ensures fresh(strings) && strings.Length == |songs|
      ensures forall i :: 0 <= i < |songs| ==> strings[i] == Formatted(songs[i])
    {
      strings := new Option<string>[|songs|](_ => None);
      for i := 0 to |songs|
        invariant forall j :: 0 <= j < i ==> strings[j] == Formatted(songs[j])
        invariant forall j :: i <= j < |songs| ==> strings[j] == None
      {
        if songs[i].None? {
          continue;
        }
        strings[i] := Some(songs[i].value.ToString());
      }
    }
  }
}
