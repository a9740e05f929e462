# GroupPlaylistShuffler in Dafny

GroupPlaylistShuffler merges the song lists of several contributors into one
playlist that treats every contributor fairly. It has three stages:

1. each contributor's list is shuffled with a Fisher-Yates shuffle;
2. the lists, concatenated in contributor order, are **distributed** round-robin
   (ABC...ABC... order): song `i` moves to `i / songsPerUser + totalUsers * (i % songsPerUser)`;
3. the distributed playlist is cut into windows of `totalUsers` songs and every
   window is shuffled on its own (the **section shuffle**).

The repository implements the pipeline twice. `Modules/Playlist.cs` uses a `Playlist`
object: `AddSong` and `AddSongs` append to its song list in place, `Shuffle` and
`DistributePlaylist` reassign the list, `FormatForWriting` only reads it, and the
static `ShuffleSections` builds a new playlist. `main.cs` uses static
methods over string arrays. `Modules/Song.cs` parses a `name,artist` line into a song.

This project models all three files. Each one is proved against specification
functions, and the fairness promised by the doc comments is proved about those
functions.

Layout:

- `options.dfy`: `Option`. `None` stands for a C# `null`.
- `arithmetic.dfy`: nonlinear arithmetic facts the index proofs need.
- `permutations.dfy`: swaps, moves by a bijection of positions, `Map`.
- `fisher_yates.dfy`: the shuffle as a function of caller-supplied draws.
- `round_robin.dfy`: distribution, defined position by position as the inverse of the loop's formula.
- `sections.dfy`: the section shuffle over windows.
- `fairness.dfy`: the composed pipeline and its fairness theorems.
- `songs.dfy`: the `Song` value, comma splitting and `ProcessSong`.
- `playlist.dfy`: the `Playlist` class of `Modules/Playlist.cs`.
- `shuffler.dfy`: the static array methods of `main.cs`.

**Randomness.** `random.Next(n--)` draws `k` in `[0, n)` and then swaps the
decremented `n` with `k`. Every shuffle here therefore takes the sequence of
its draws, `ks`. `ValidDraws(ks, n)` says there is one draw per step and that
draw `j` is below `n - j`. The section shuffle takes one such sequence per
window (`ValidSectionDraws`). `ShuffledReachesEveryPermutation` proves the
converse: every permutation is produced by some valid draws.

**Fairness.** Contributors are tracked by running the pipeline on owner labels
(`Owners`: song `i` belongs to contributor `i / songsPerUser`). The pipeline
moves items without looking at them (`FairOrderMap`), so
`FairOrderTakesFrom` and `FairOwnersTrackItems` show that the label at a
position is the contributor of the song there.

**Edge cases in the C# code:**

- `ShuffleSections` in `Modules/Playlist.cs` returns `null` for `totalUsers < 1`
  (Modules/Playlist.cs:157-160). `ShufflePlaylist` in `main.cs` divides by zero
  for 0 (main.cs:190). For a negative count the truncated quotient is not
  positive, so it makes no window.
- `DistributePlaylist` in `main.cs` returns `null` when the song count is not a
  multiple of `totalUsers` (main.cs:136-140).
- Songs after the last whole window are not copied. The `Playlist` version
  returns only the whole windows (Modules/Playlist.cs:163-179). In `main.cs`
  their slots stay `null` in an array of the input's length (main.cs:189-203).

## Model

| member | source | states |
|---|---|---|
| Permutations.Swap | main.cs:107-109 | the result exchanges the values at the two positions and leaves every other position as it was |
| Permutations.SwapIsPermutation | Modules/Playlist.cs:84-86 | one swap step keeps the multiset of songs |
| FisherYates.ShufflePrefix | main.cs:102-110 | the loop run from counter `n`: swap position `n - 1` with the next draw, then continue from `n - 1`; the length is kept |
| FisherYates.Shuffled | main.cs:95-113 | the whole shuffle of a list with its draws; the length is kept (a permutation by `ShuffledIsPermutation`) |
| FisherYates.ShufflePrefixFrame | main.cs:102-110 | the loop whose counter starts at `n` leaves positions `n..` in place and only reorders the first `n` songs |
| FisherYates.ShuffledIsPermutation | Modules/Playlist.cs:77-87 | the shuffle neither adds, drops nor duplicates a song |
| FisherYates.ShuffledShortUnchanged | Modules/Playlist.cs:77-79 | a list of length 0 or 1 is left unchanged, because the loop never runs |
| FisherYates.ShuffledReachesEveryPermutation | main.cs:102-110 | for every permutation `t` of `s` there are valid draws whose shuffle of `s` is `t` |
| FisherYates.ShufflePrefixMap | main.cs:102-110 | shuffling commutes with applying a function to every song, because the swaps never inspect values |
| FisherYates.ShufflePrefixKeepsDistinct | main.cs:102-110 | shuffling pairwise different values keeps them pairwise different |
| FisherYates.StayDrawsKeepOrder | main.cs:104-109 | when every draw equals the counter, the order is kept |
| FisherYates.SwapEndsDrawsSwapEnds | main.cs:104-109 | a first draw of 0 followed by draws equal to the counter exchanges the first and last song |
| RoundRobin.Destination | main.cs:156-159 | the index `user + totalUsers * songIndex` the loop writes song `i` to; `DestinationInverse` proves it in range and inverted by `Source` |
| RoundRobin.Distributed | main.cs:142-162 | the distributed order, position by position: position `p` holds song `p / N` of contributor `p % N`; the length is kept |
| RoundRobin.SourceInRange | main.cs:147-153 | position `p` takes song `p / N` of contributor `p % N`, which is inside the input |
| RoundRobin.DestinationInverse | main.cs:156-159 | the index `user + totalUsers * songIndex` written for song `i` is in range, and its source is `i` |
| RoundRobin.SourceInverse | Modules/Playlist.cs:124-127 | every position is written by exactly the song that is its source, so the formula is a bijection |
| RoundRobin.DistributedAt | main.cs:154-160 | song `i` lands at `i / songsPerUser + totalUsers * (i % songsPerUser)` |
| RoundRobin.DistributedRoundRobin | main.cs:147-160 | position `w * N + u` holds song `w` of contributor `u`, i.e. input song `u * songsPerUser + w` |
| RoundRobin.DistributedIsPermutation | Modules/Playlist.cs:111-130 | distribution is a permutation of the input |
| RoundRobin.DistributedMap | main.cs:154-160 | distribution commutes with applying a function to every song |
| RoundRobin.DistributedExample | main.cs:116 | `[a1,a2,b1,b2,c1,c2]` with three contributors becomes `[a1,b1,c1,a2,b2,c2]` |
| RoundRobin.PlaceNext | main.cs:154-160 | one loop step extends the set of correctly placed songs by song `i` |
| RoundRobin.PlacedAllIsDistributed | main.cs:154-162 | after all songs are placed, the loop's output is the distributed order |
| Sections.ShuffledWindows | main.cs:192-203 | the first `w` windows, each shuffled with its own draws, one after another: `w * size` songs |
| Sections.ShuffledSections | Modules/Playlist.cs:162-179 | every whole window shuffled, the remainder dropped, so the result holds the whole windows only |
| Sections.ShuffledWindowsAt | main.cs:192-203 | window `v` of the partial result is window `v` of the input, shuffled with its own draws |
| Sections.ShuffledSectionsWindow | main.cs:192-203 | each window of the section shuffle is a shuffle of the same window of the input, with the same multiset |
| Sections.ShuffledSectionsIsPermutation | Modules/Playlist.cs:163-179 | the section shuffle is a permutation of the input without its trailing remainder |
| Sections.ShuffledWindowsMap | main.cs:192-203 | the section shuffle commutes with applying a function to every song |
| Fairness.FairOrder | main.cs:48-54 | distribution followed by the section shuffle; the length is kept |
| Fairness.FairOrderIsPermutation | main.cs:48-54 | distributing and then section-shuffling loses and duplicates nothing |
| Fairness.FairOrderWindow | main.cs:168-172 | window `w` of the final order is song `w` of every contributor, shuffled with `kss[w]` |
| Fairness.FairOrderWindowContents | main.cs:168-172 | window `w` of the final order holds exactly song `w` of every contributor |
| Fairness.FairOrderMap | main.cs:48-54 | the whole pipeline commutes with applying a function to every song |
| Fairness.FairOrderOfPositionsInRange | main.cs:48-54 | the pipeline run on the positions yields positions of the input |
| Fairness.FairOrderTakesFrom | main.cs:48-54 | position `p` of the final order holds the input song at `origin[p]`, where `origin` is the pipeline run on the positions |
| Fairness.FairOwnersTrackItems | main.cs:168-172 | the owner label at position `p` is the contributor of the song at `p` |
| Fairness.RoundOfOwners | main.cs:147-153 | song `w` of every contributor's list belongs to that contributor |
| Fairness.EachOnceWhenShuffledIota | Modules/Playlist.cs:137-138 | a shuffle of the labels `0..N-1` holds every label exactly once |
| Fairness.OnePerContributorPerWindow | Modules/Playlist.cs:137-138 | every window of `N` in the final order holds exactly one song of every contributor |
| Fairness.FairOwnersWindows | main.cs:168-172 | the owner labels of the final order consist of fair windows |
| Fairness.WindowIndex | main.cs:192-196 | every position lies in exactly one window |
| Fairness.LabelInWindow | main.cs:168-172 | every window holds every contributor at some position |
| Fairness.FairWindowsGap | main.cs:173-175 | in fair windows, two consecutive occurrences of a label have at most `2 * (n - 1)` other labels between them |
| Fairness.GapAtMostTwiceOthers | Modules/Playlist.cs:141-143 | between two consecutive songs of one contributor there are at most `2 * (N - 1)` songs of others |
| Fairness.WorstGapIsReached | Modules/Playlist.cs:141-142 | some draws do produce a gap of exactly `2 * (N - 1)` (ABCD-DBCA) |
| Fairness.FairWindowsNoThreeInARow | main.cs:175-176 | in fair windows of at least two labels, no label occurs three times in a row |
| Fairness.NoThreeInARow | Modules/Playlist.cs:143-144 | with two or more contributors, no contributor gets three songs in a row |
| Fairness.OneContributorOwnsAll | Modules/Playlist.cs:143-144 | with one contributor every song is theirs, so the claim above needs two or more contributors |
| Songs.Song.ToString | Modules/Song.cs:10-19 | the name as stored, then ` by `, then the artist as stored |
| Songs.Fields | Modules/Song.cs:23 | splitting on `,` gives one more field than there are commas, and no field holds a comma |
| Songs.JoinFields | Modules/Song.cs:23 | the fields joined with commas give the line back |
| Songs.FieldsJoin | Modules/Song.cs:23 | splitting comma-free fields joined with commas gives the same fields |
| Songs.ProcessSong | Modules/Song.cs:21-31 | a song exactly when the line has one comma; its name is the text before the comma and its artist the text after it, untrimmed |
| Songs.ProcessSongRoundTrip | Modules/Song.cs:16-31 | `name,artist` without other commas reads back as `Song(name, artist)`, which displays as `name by artist` |
| Playlists.Formatted | Modules/Playlist.cs:197-202 | text exactly for a present song, of the length of `name by artist` |
| Playlists.Playlist.constructor | Modules/Playlist.cs:12-16 | the name is `Playlist` and the list is empty |
| Playlists.Playlist.Named | Modules/Playlist.cs:18-22 | the given name and an empty list |
| Playlists.Playlist.WithSongs | Modules/Playlist.cs:24-28 | the name `Playlist` and the given songs |
| Playlists.Playlist.NamedWithSongs | Modules/Playlist.cs:30-34 | the given name and the given songs |
| Playlists.Playlist.AddSong | Modules/Playlist.cs:36-39 | the song is appended and the name is unchanged |
| Playlists.Playlist.AddSongs | Modules/Playlist.cs:45-51 | the given songs are appended in order and nothing else changes |
| Playlists.Playlist.AddSongsFrom | Modules/Playlist.cs:57-60 | the other playlist's songs are appended in order |
| Playlists.Playlist.Shuffle | Modules/Playlist.cs:71-90 | the new list is the Fisher-Yates shuffle of the old one with the given draws: a permutation, unchanged for length 0 or 1 |
| Playlists.Playlist.DistributePlaylist | Modules/Playlist.cs:104-131 | the new list is the round-robin distribution of the old one and a permutation of it |
| Playlists.Playlist.ShuffleSections | Modules/Playlist.cs:155-184 | `null` exactly when `totalUsers < 1`; otherwise a new playlist holding the section shuffle of the input |
| Playlists.Playlist.ShuffleSectionsOf | Modules/Playlist.cs:186-189 | the section shuffle of the playlist's songs, the same result as above |
| Playlists.Playlist.FormatForWriting | Modules/Playlist.cs:191-206 | a new array as long as the list, missing where the song is missing and `name by artist` otherwise |
| GroupPlaylistShuffler.ArrayCopy | main.cs:196 | `Array.Copy`: the target range receives the source range and the rest of the target is unchanged |
| GroupPlaylistShuffler.Shuffle | main.cs:95-113 | the array is shuffled in place with the given draws, returned as the same object, and holds a permutation of its old contents |
| GroupPlaylistShuffler.DistributePlaylist | main.cs:130-163 | `null` exactly when the count is not a multiple of `totalUsers`; otherwise a new array holding the round-robin distribution |
| GroupPlaylistShuffler.TruncatedDiv | main.cs:190 | C# division of a length by a count: the quotient for a positive count and at most zero for a negative one |
| GroupPlaylistShuffler.NextWindowFits | main.cs:192-196 | each window the loop cuts out lies inside the input |
| GroupPlaylistShuffler.ShuffleWindowInto | main.cs:194-202 | copying window `i` out, shuffling it and copying it back replaces exactly that window of the output with its shuffle |
| GroupPlaylistShuffler.SectionStep | main.cs:192-203 | after window `i` is written, the first `i + 1` windows of the output are those of the section shuffle |
| GroupPlaylistShuffler.ShufflePlaylist | main.cs:187-206 | a new array of the input's length whose whole windows are the section shuffle of the input, with the remaining slots `null` (all `null` for a negative count) |

## Left out

- Uniformity of `System.Random` is not modelled. Draws are parameters and only their bounds are checked. `ShuffledReachesEveryPermutation` shows that every outcome is reachable, not that outcomes are equally likely.
- `Main` and `Read` in `main.cs` are not modelled: argument handling, `File.ReadAllLines`, writing `Playlist.txt` and `Console.WriteLine` are I/O. `Modules/Main.cs` is not part of this model.
- GroupPlaylistShuffler.DistributePlaylist: the message printed for an uneven count is not modelled.
- GroupPlaylistShuffler.DistributePlaylist: requires `totalUsers >= 1`. The other counts are not modelled. For each of them the C# does the following:
  - a count of 0: `input.Count % 0` at main.cs:136 throws `DivideByZeroException`, whatever the input;
  - a negative count that does not divide the song count: `null` from the guard at main.cs:136-139;
  - a negative count and zero songs: the guard passes and the method returns an empty array;
  - a count of -1 and one song: `songsPerUser` is -1, song 0 goes to index 0, and the method returns a copy;
  - a negative count that divides two or more songs: the second song goes to a negative index at main.cs:159, which throws `IndexOutOfRangeException`.
- Playlists.Playlist.DistributePlaylist: requires `totalUsers >= 1` and a song count that is a multiple of it. An empty list meets this for every positive count, so it is modelled: the list stays empty. The guard at Modules/Playlist.cs:106-109 does nothing, and the other cases are not modelled. For each of them the C# does the following:
  - a count of 0: `Songs.Count / 0` at Modules/Playlist.cs:114 throws `DivideByZeroException`, whatever the list;
  - a positive count above the song count, with at least one song: `songsPerUser` is 0, and `i / songsPerUser` at Modules/Playlist.cs:124 throws `DivideByZeroException`;
  - a song count between the count and twice the count, not a multiple of it: `songsPerUser` is 1, every song is written to its own index, and the list comes out unchanged (5 songs, 3 users);
  - a song count above twice the count, not a multiple of it: `songsPerUser` is at least 2, some slots are overwritten and others stay `null` (5 songs and 2 users give `[s0, s2, s4, s3, null]`);
  - a negative count and zero songs: the loop never runs and the list stays empty;
  - a negative count and one song: with -1 the song stays at index 0; with a count below -1, `songsPerUser` is 0 and Modules/Playlist.cs:124 throws `DivideByZeroException`;
  - a negative count and two or more songs: with the count's magnitude above the song count, `songsPerUser` is 0 and Modules/Playlist.cs:124 throws `DivideByZeroException`; otherwise the second song goes to a negative index at Modules/Playlist.cs:127, which throws `ArgumentOutOfRangeException` (2 songs and a count of -2 write index -1).
- Playlists.Playlist.Shuffle: the C# list is shuffled in place, and the same list object may be shared with whoever passed it to a constructor. Here the list is a value, so that sharing is not modelled.
- Playlists.Playlist.WithSongs: stores a copy of the songs, not a reference to the caller's list, so aliasing with that list is not modelled.
- Playlists.Playlist.AddSongsFrom: requires that the playlist is not added to itself unless it is empty. The C# enumeration fails once the list it enumerates changes.
- GroupPlaylistShuffler.ShufflePlaylist: requires `totalUsers != 0`; with 0 the source divides by zero (main.cs:190).
- Playlists.Playlist.AddSongs: passing the playlist's own list is not modelled. In C# the enumeration at Modules/Playlist.cs:47-49 fails once `AddSong` appends to the list it enumerates; here the list is a value, so the call would append a copy of it.
- OnePerContributorPerWindow: holds only when every contributor has exactly `songsPerUser` songs (`Owners`). The source asks for equal counts only in a comment (main.cs:119); the guard at main.cs:133-136 checks only that the total divides evenly, and Modules/Playlist.cs has no guard. With one song from A and three from B the guard passes, distribution gives `[a1, b2, b1, b3]`, and window 1 holds no song of A.
- GapAtMostTwiceOthers: holds only for equal per-contributor counts, as above; with unequal lists a contributor's songs can be further apart.
- NoThreeInARow: holds only for equal per-contributor counts, as above; in the example, window shuffles that keep the order give B three songs in a row (`b2, b1, b3`).
- NoThreeInARow: requires at least two contributors. The doc comment's "at most two consecutive" does not hold for a single contributor (`OneContributorOwnsAll`).
- `null` song lists, arrays, lines or fields, and the `NullReferenceException`s they raise, are not modelled. A missing song inside a list or array is modelled as `None`.
- Integers are unbounded. Every index the source computes is below a list or array length, so 32-bit overflow cannot occur in the modelled paths.
- The commented-out `Array.Copy` at Modules/Playlist.cs:177 is not modelled.
