/**
 * Scraping notes from the tracks of a MIDI file. Each track is a list of
 * messages whose `time` is the delta in ticks since the previous message of
 * the same track; a note-on with non-zero velocity starts a note, and a
 * note-off (or a note-on with velocity 0) for the same pitch and channel
 * ends it. The file's tracks and its ticks per beat are given as values:
 * reading the file is not part of this model.
 */
module Midi {
  import opened Wrappers

  datatype MessageType = NoteOn | NoteOff | OtherMessage

  /** A track message: its type, its delta time in ticks, and its note, channel and velocity. */
  datatype Message = Message(kind: MessageType, time: nat, note: int, channel: int, velocity: int)

  /** The `Note` record: track index, channel, pitch, volume in [0, 1], start and length in beats. */
  datatype Note = Note(track: nat, channel: int, pitch: int, volume: real, startTime: real, length: real)

  /** A started note: its volume and its start time in beats. */
  datatype Start = Start(volume: real, time: real)

  /** The scraper's state: the started notes by (pitch, channel), and the notes found so far. */
  datatype Scan = Scan(started: map<(int, int), Start>, notes: seq<Note>)

  /** `zip(*notes)` with no note gives nothing to unpack into six names. */
  datatype MidiError = ValueError

  /** A message that ends a note: a note-off, or a note-on with velocity 0. */
  predicate EndsNote(m: Message)
  {
    m.kind == NoteOff || (m.kind == NoteOn && m.velocity == 0)
  }

  /** A message that starts a note: any other note-on. */
  predicate StartsNote(m: Message)
  {
    m.kind == NoteOn && m.velocity != 0
  }

  /**
   * One message, arriving at time t of the given track: an ending message
   * emits the note started under its (pitch, channel), if any, and leaves
   * the start stored; a starting message stores (velocity / 127, t) under
   * its key, replacing an earlier start; other messages change nothing.
   */
  function Step(s: Scan, track: nat, t: real, m: Message): (r: Scan)
    ensures r.started.Keys >= s.started.Keys
    ensures !StartsNote(m) ==> r.started == s.started
    ensures StartsNote(m) ==> r.started == s.started[(m.note, m.channel) := Start(m.velocity as real / 127.0, t)]
    ensures EndsNote(m) && (m.note, m.channel) in s.started ==>
      var start := s.started[(m.note, m.channel)];
      r.notes == s.notes + [Note(track, m.channel, m.note, start.volume, start.time, t - start.time)]
    ensures !(EndsNote(m) && (m.note, m.channel) in s.started) ==> r.notes == s.notes
  {
    var key := (m.note, m.channel);
    if EndsNote(m) then
      if key in s.started then
        var start := s.started[key];
        Scan(s.started, s.notes + [Note(track, m.channel, m.note, start.volume, start.time, t - start.time)])
      else s
    else if m.kind == NoteOn then
      Scan(s.started[key := Start(m.velocity as real / 127.0, t)], s.notes)
    else s
  }

  /** The beats a message's delta time amounts to. */
  function Beats(m: Message, ticksPerBeat: nat): (b: real)
    requires ticksPerBeat > 0
    ensures b >= 0.0
  {
    m.time as real / ticksPerBeat as real
  }

  /** The rest of a track, from time t: each message first advances the time, then is handled. */
  function ScanTrack(s: Scan, track: nat, t: real, messages: seq<Message>, ticksPerBeat: nat): Scan
    requires ticksPerBeat > 0
    decreases |messages|
  {
    if messages == [] then s
    else
      var now := t + Beats(messages[0], ticksPerBeat);
      ScanTrack(Step(s, track, now, messages[0]), track, now, messages[1..], ticksPerBeat)
  }

  /** The tracks from index k on, each from time 0, all sharing the started notes. */
  function ScanTracks(s: Scan, k: nat, tracks: seq<seq<Message>>, ticksPerBeat: nat): Scan
    requires ticksPerBeat > 0
    decreases |tracks| - k
  {
    if k >= |tracks| then s
    else ScanTracks(ScanTrack(s, k, 0.0, tracks[k], ticksPerBeat), k + 1, tracks, ticksPerBeat)
  }

  /** Notes are ordered by start time, earliest first. */
  predicate SortedByStart(notes: seq<Note>)
  {
    forall i, j :: 0 <= i < j < |notes| ==> notes[i].startTime <= notes[j].startTime
  }

  /** The notes starting at time v, in their order. */
  function StartingAt(notes: seq<Note>, v: real): seq<Note>
  {
    if notes == [] then []
    else (if notes[0].startTime == v then [notes[0]] else []) + StartingAt(notes[1..], v)
  }

  /** Puts a note before the first note that starts no earlier. */
  function InsertByStart(n: Note, sorted: seq<Note>): (r: seq<Note>)
    ensures multiset(r) == multiset(sorted) + multiset{n}
  {
    if sorted == [] || n.startTime <= sorted[0].startTime then [n] + sorted
    else
      assert sorted == [sorted[0]] + sorted[1..];
      [sorted[0]] + InsertByStart(n, sorted[1..])
  }

  /** Inserting into a sorted list keeps it sorted. */
  lemma {:induction false} InsertSorted(n: Note, sorted: seq<Note>)
    requires SortedByStart(sorted)
    ensures SortedByStart(InsertByStart(n, sorted))
  {
    if sorted != [] && n.startTime > sorted[0].startTime {
      var rest := InsertByStart(n, sorted[1..]);
      InsertSorted(n, sorted[1..]);
      forall j | 0 <= j < |rest|
        ensures sorted[0].startTime <= rest[j].startTime
      {
        assert rest[j] in multiset(rest);
        if rest[j] != n {
          assert rest[j] in multiset(sorted[1..]);
          var k :| 0 <= k < |sorted[1..]| && sorted[1..][k] == rest[j];
          assert sorted[k + 1] == rest[j];
        }
      }
    }
  }

  /** Inserting a note passes only notes that start strictly earlier, so among equal starts it comes first. */
  lemma {:induction false} InsertKeepsOrder(n: Note, sorted: seq<Note>, v: real)
    ensures StartingAt(InsertByStart(n, sorted), v) == (if n.startTime == v then [n] else []) + StartingAt(sorted, v)
  {
    if sorted == [] || n.startTime <= sorted[0].startTime {
      assert ([n] + sorted)[1..] == sorted;
    } else {
      var rest := InsertByStart(n, sorted[1..]);
      assert ([sorted[0]] + rest)[1..] == rest;
      InsertKeepsOrder(n, sorted[1..], v);
    }
  }

  /** `notes.sort(key=start_time)`: a stable sort by start time. */
  function SortByStart(notes: seq<Note>): (r: seq<Note>)
    ensures SortedByStart(r)
    ensures multiset(r) == multiset(notes)
    ensures |r| == |notes|
  {
    if notes == [] then []
    else
      var rest := SortByStart(notes[1..]);
      InsertSorted(notes[0], rest);
      assert multiset(notes) == multiset(notes[1..]) + multiset{notes[0]} by {
        assert notes == [notes[0]] + notes[1..];
      }
      InsertByStart(notes[0], rest)
  }

  /** The sort is stable: the notes with any one start time keep their relative order. */
  lemma {:induction false} SortIsStable(notes: seq<Note>, v: real)
    ensures StartingAt(SortByStart(notes), v) == StartingAt(notes, v)
  {
    if notes != [] {
      SortIsStable(notes[1..], v);
      InsertKeepsOrder(notes[0], SortByStart(notes[1..]), v);
    }
  }

  /** `scrape_midi_file_to_note_list`: every track scanned in turn, then the notes sorted by start. */
  function ScrapeNoteList(tracks: seq<seq<Message>>, ticksPerBeat: nat): seq<Note>
    requires ticksPerBeat > 0
  {
    SortByStart(ScanTracks(Scan(map[], []), 0, tracks, ticksPerBeat).notes)
  }

  /** The scraper with its started-notes dict, its time counter and its note list. */
  method ScrapeNotes(tracks: seq<seq<Message>>, ticksPerBeat: nat) returns (notes: seq<Note>)
    requires ticksPerBeat > 0
    ensures notes == ScrapeNoteList(tracks, ticksPerBeat)
    ensures SortedByStart(notes)
  {
    var started: map<(int, int), Start> := map[];
    notes := [];
    var k := 0;
    while k < |tracks|
      invariant 0 <= k <= |tracks|
      invariant ScanTracks(Scan(started, notes), k, tracks, ticksPerBeat) == ScanTracks(Scan(map[], []), 0, tracks, ticksPerBeat)
    {
      var track := tracks[k];
      ghost var before := Scan(started, notes);
      var t: real := 0.0;
      var i := 0;
      while i < |track|
        invariant 0 <= i <= |track|
        invariant ScanTrack(Scan(started, notes), k, t, track[i..], ticksPerBeat) == ScanTrack(before, k, 0.0, track, ticksPerBeat)
      {
        var message := track[i];
        assert track[i..][1..] == track[i + 1..];
        t := t + message.time as real / ticksPerBeat as real;
        if message.kind == NoteOff || (message.kind == NoteOn && message.velocity == 0) {
          var key := (message.note, message.channel);
          if key in started {
            var start := started[key];
            notes := notes + [Note(k, message.channel, message.note, start.volume, start.time, t - start.time)];
          }
        } else if message.kind == NoteOn {
          started := started[(message.note, message.channel) := Start(message.velocity as real / 127.0, t)];
        }
        i := i + 1;
      }
      assert track[i..] == [];
      k := k + 1;
    }
    notes := SortByStart(notes);
  }

  /**
   * Times accumulate within a track: a note-on followed by its note-off
   * makes a note that starts at the note-on's time and lasts the note-off's
   * delta, both in beats.
   */
  lemma OnThenOff(s: Scan, track: nat, t: real, on: Message, off: Message, ticksPerBeat: nat)
    requires ticksPerBeat > 0
    requires StartsNote(on) && EndsNote(off) && on.note == off.note && on.channel == off.channel
    ensures ScanTrack(s, track, t, [on, off], ticksPerBeat).notes ==
      s.notes + [Note(track, on.channel, on.note, on.velocity as real / 127.0,
                      t + Beats(on, ticksPerBeat), Beats(off, ticksPerBeat))]
  {
    var t1 := t + Beats(on, ticksPerBeat);
    var t2 := t1 + Beats(off, ticksPerBeat);
    var s1 := Step(s, track, t1, on);
    assert [on, off][1..] == [off];
    assert ScanTrack(s, track, t, [on, off], ticksPerBeat) == ScanTrack(s1, track, t1, [off], ticksPerBeat);
    assert [off][1..] == [];
    assert ScanTrack(s1, track, t1, [off], ticksPerBeat) == Step(s1, track, t2, off);
  }

  /**
   * Stored starts are never removed, so a second ending message for the same
   * pitch and channel emits a second note with the same start.
   */
  lemma RepeatedEndDuplicates(s: Scan, track: nat, t1: real, t2: real, m1: Message, m2: Message)
    requires EndsNote(m1) && EndsNote(m2)
    requires m1.note == m2.note && m1.channel == m2.channel
    requires (m1.note, m1.channel) in s.started
    ensures
      var start := s.started[(m1.note, m1.channel)];
      Step(Step(s, track, t1, m1), track, t2, m2).notes ==
        s.notes + [Note(track, m1.channel, m1.note, start.volume, start.time, t1 - start.time),
                   Note(track, m1.channel, m1.note, start.volume, start.time, t2 - start.time)]
  {
  }

  /**
   * The started notes are shared by all tracks while the time restarts at
   * 0 for each: a note started late in track 0 and ended early in track 1
   * comes out with a negative length.
   */
  lemma CrossTrackNegativeLength()
    ensures
      var tracks := [[Message(NoteOn, 2, 60, 0, 127)], [Message(NoteOff, 0, 60, 0, 0)]];
      ScanTracks(Scan(map[], []), 0, tracks, 1).notes == [Note(1, 0, 60, 1.0, 2.0, -2.0)]
  {
    var tracks := [[Message(NoteOn, 2, 60, 0, 127)], [Message(NoteOff, 0, 60, 0, 0)]];
    var s0 := Scan(map[], []);
    var s1 := ScanTrack(s0, 0, 0.0, tracks[0], 1);
    assert s1 == Scan(map[(60, 0) := Start(1.0, 2.0)], []);
    var s2 := ScanTrack(s1, 1, 0.0, tracks[1], 1);
    assert s2.notes == [Note(1, 0, 60, 1.0, 2.0, -2.0)];
  }

  /**
   * The pairing the scraper evidently means: within one track, an ending
   * message takes the started note off the table, so each start is used once.
   */
  function PairedStep(s: Scan, track: nat, t: real, m: Message): (r: Scan)
    ensures EndsNote(m) && (m.note, m.channel) in s.started ==> (m.note, m.channel) !in r.started
    ensures EndsNote(m) ==> |r.notes| <= |s.notes| + 1
  {
    var key := (m.note, m.channel);
    if EndsNote(m) then
      if key in s.started then
        var start := s.started[key];
        Scan(s.started - {key}, s.notes + [Note(track, m.channel, m.note, start.volume, start.time, t - start.time)])
      else s
    else if m.kind == NoteOn then
      Scan(s.started[key := Start(m.velocity as real / 127.0, t)], s.notes)
    else s
  }

  /** Every stored start lies at or before t, and every note found has a length of at least 0. */
  ghost predicate Consistent(s: Scan, t: real)
  {
    (forall key :: key in s.started ==> s.started[key].time <= t) &&
    (forall i :: 0 <= i < |s.notes| ==> s.notes[i].length >= 0.0)
  }

  /** The rest of a track under the paired rule. */
  function PairedTrack(s: Scan, track: nat, t: real, messages: seq<Message>, ticksPerBeat: nat): (r: Scan)
    requires ticksPerBeat > 0
    ensures Consistent(s, t) ==> forall i :: 0 <= i < |r.notes| ==> r.notes[i].length >= 0.0
    decreases |messages|
  {
    if messages == [] then s
    else
      var now := t + Beats(messages[0], ticksPerBeat);
      var next := PairedStep(s, track, now, messages[0]);
      assert Consistent(s, t) ==> Consistent(next, now) by {
        if Consistent(s, t) {
          forall i | 0 <= i < |next.notes|
            ensures next.notes[i].length >= 0.0
          {
            if i >= |s.notes| {
              var m := messages[0];
              assert s.started[(m.note, m.channel)].time <= t;
            }
          }
        }
      }
      PairedTrack(next, track, now, messages[1..], ticksPerBeat)
  }

  /** Every track under the paired rule, each with its own table of started notes. */
  function PairedTracks(notes: seq<Note>, k: nat, tracks: seq<seq<Message>>, ticksPerBeat: nat): (r: seq<Note>)
    requires ticksPerBeat > 0
    ensures (forall i :: 0 <= i < |notes| ==> notes[i].length >= 0.0) ==>
      forall i :: 0 <= i < |r| ==> r[i].length >= 0.0
    decreases |tracks| - k
  {
    if k >= |tracks| then notes
    else PairedTracks(PairedTrack(Scan(map[], notes), k, 0.0, tracks[k], ticksPerBeat).notes, k + 1, tracks, ticksPerBeat)
  }

  /** With paired starts, no note has a negative length. */
  lemma PairedLengthsNonNegative(tracks: seq<seq<Message>>, ticksPerBeat: nat)
    requires ticksPerBeat > 0
    ensures forall n :: n in SortByStart(PairedTracks([], 0, tracks, ticksPerBeat)) ==> n.length >= 0.0
  {
    var notes := PairedTracks([], 0, tracks, ticksPerBeat);
    forall n | n in SortByStart(notes)
      ensures n.length >= 0.0
    {
      assert n in multiset(SortByStart(notes));
      assert n in notes;
    }
  }

  /** With paired starts, a repeated ending message emits nothing. */
  lemma PairedRepeatedEnd(s: Scan, track: nat, t1: real, t2: real, m1: Message, m2: Message)
    requires EndsNote(m1) && EndsNote(m2)
    requires m1.note == m2.note && m1.channel == m2.channel
    requires (m1.note, m1.channel) in s.started
    ensures |PairedStep(PairedStep(s, track, t1, m1), track, t2, m2).notes| == |s.notes| + 1
  {
  }

  /** The dict `scrape_midi_file_to_dict` returns, one list per key. */
  datatype NoteTable = NoteTable(
    pitches: seq<int>,
    startTimes: seq<real>,
    volumes: seq<real>,
    lengths: seq<real>,
    interOnsetTimes: seq<real>,
    tracks: seq<nat>)

  /**
   * The note list as columns: one entry per note in each list, and the
   * differences of consecutive start times. No note at all is a ValueError.
   */
  function ToTable(notes: seq<Note>): (r: Result<NoteTable, MidiError>)
    ensures r.Failure? <==> notes == []
    ensures r.Success? ==>
      |r.value.pitches| == |r.value.startTimes| == |r.value.volumes| == |r.value.lengths| == |r.value.tracks| == |notes|
    ensures r.Success? ==> forall i :: 0 <= i < |notes| ==>
      r.value.pitches[i] == notes[i].pitch && r.value.startTimes[i] == notes[i].startTime &&
      r.value.volumes[i] == notes[i].volume && r.value.lengths[i] == notes[i].length && r.value.tracks[i] == notes[i].track
    ensures r.Success? ==> |r.value.interOnsetTimes| == |notes| - 1
    ensures r.Success? ==> forall i :: 0 <= i < |notes| - 1 ==>
      r.value.interOnsetTimes[i] == notes[i + 1].startTime - notes[i].startTime
  {
    if notes == [] then Failure(ValueError)
    else
      var starts := seq(|notes|, (i: nat) requires i < |notes| => notes[i].startTime);
      Success(NoteTable(
        seq(|notes|, (i: nat) requires i < |notes| => notes[i].pitch),
        starts,
        seq(|notes|, (i: nat) requires i < |notes| => notes[i].volume),
        seq(|notes|, (i: nat) requires i < |notes| => notes[i].length),
        seq(|notes| - 1, (i: nat) requires i < |notes| - 1 => starts[i + 1] - starts[i]),
        seq(|notes|, (i: nat) requires i < |notes| => notes[i].track)))
  }

  /**
   * `scrape_midi_file_to_dict`: ValueError exactly when no note was paired,
   * otherwise one entry per scraped note in chronological order.
   */
  function ScrapeToTable(tracks: seq<seq<Message>>, ticksPerBeat: nat): (r: Result<NoteTable, MidiError>)
    requires ticksPerBeat > 0
    ensures r.Failure? <==> ScrapeNoteList(tracks, ticksPerBeat) == []
    ensures r.Success? ==> |r.value.startTimes| == |ScrapeNoteList(tracks, ticksPerBeat)|
    ensures r.Success? ==> forall i, j :: 0 <= i < j < |r.value.startTimes| ==> r.value.startTimes[i] <= r.value.startTimes[j]
  {
    ToTable(ScrapeNoteList(tracks, ticksPerBeat))
  }

  /** A file that pairs no note at all makes the dict scraper raise. */
  lemma NoNotesRaises(tracks: seq<seq<Message>>, ticksPerBeat: nat)
    requires ticksPerBeat > 0
    requires forall k, i :: 0 <= k < |tracks| && 0 <= i < |tracks[k]| ==> !EndsNote(tracks[k][i])
    ensures ScrapeToTable(tracks, ticksPerBeat) == Failure(ValueError)
  {
    NoEndsNoNotes(Scan(map[], []), 0, tracks, ticksPerBeat);
  }

  lemma {:induction false} NoEndsNoNotes(s: Scan, k: nat, tracks: seq<seq<Message>>, ticksPerBeat: nat)
    requires ticksPerBeat > 0
    requires forall j, i :: 0 <= j < |tracks| && 0 <= i < |tracks[j]| ==> !EndsNote(tracks[j][i])
    ensures ScanTracks(s, k, tracks, ticksPerBeat).notes == s.notes
    decreases |tracks| - k
  {
    if k < |tracks| {
      NoEndsTrack(s, k, 0.0, tracks[k], ticksPerBeat);
      NoEndsNoNotes(ScanTrack(s, k, 0.0, tracks[k], ticksPerBeat), k + 1, tracks, ticksPerBeat);
    }
  }

  lemma {:induction false} NoEndsTrack(s: Scan, track: nat, t: real, messages: seq<Message>, ticksPerBeat: nat)
    requires ticksPerBeat > 0
    requires forall i :: 0 <= i < |messages| ==> !EndsNote(messages[i])
    ensures ScanTrack(s, track, t, messages, ticksPerBeat).notes == s.notes
    decreases |messages|
  {
    if messages != [] {
      var now := t + Beats(messages[0], ticksPerBeat);
      NoEndsTrack(Step(s, track, now, messages[0]), track, now, messages[1..], ticksPerBeat);
    }
  }

  /** Summing the inter-onset times rebuilds every start time from the first. */
  lemma {:induction false} OnsetsRebuildStarts(table: NoteTable, i: nat)
    requires |table.interOnsetTimes| == |table.startTimes| - 1 && i < |table.startTimes|
    requires forall j :: 0 <= j < |table.startTimes| - 1 ==>
      table.interOnsetTimes[j] == table.startTimes[j + 1] - table.startTimes[j]
    ensures table.startTimes[i] == table.startTimes[0] + Total(table.interOnsetTimes[..i])
  {
    if i > 0 {
      var m := i - 1;
      OnsetsRebuildStarts(table, m);
      TotalAppend(table.interOnsetTimes[..m], table.interOnsetTimes[m]);
      assert table.interOnsetTimes[..i] == table.interOnsetTimes[..m] + [table.interOnsetTimes[m]];
    }
  }

  function Total(xs: seq<real>): real
  {
    if xs == [] then 0.0 else xs[0] + Total(xs[1..])
  }

  lemma {:induction false} TotalAppend(xs: seq<real>, x: real)
    ensures Total(xs + [x]) == Total(xs) + x
  {
    if xs != [] {
      assert (xs + [x])[1..] == xs[1..] + [x];
      TotalAppend(xs[1..], x);
    }
  }

  /** The scraped notes come sorted, so no inter-onset time is negative. */
  lemma OnsetsNonNegative(tracks: seq<seq<Message>>, ticksPerBeat: nat)
    requires ticksPerBeat > 0
    ensures ScrapeToTable(tracks, ticksPerBeat).Success? ==>
      forall i :: 0 <= i < |ScrapeToTable(tracks, ticksPerBeat).value.interOnsetTimes| ==>
        ScrapeToTable(tracks, ticksPerBeat).value.interOnsetTimes[i] >= 0.0
  {
    var notes := ScrapeNoteList(tracks, ticksPerBeat);
    assert SortedByStart(notes);
  }
}
