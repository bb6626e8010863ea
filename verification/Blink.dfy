/** The blink engine of fish/blink.S as operations on a sequence of blinking characters. */
module Blinks {
  import opened Arithmetic
  import opened Bytes

  type Word = w: int | 0 <= w < 0x1_0000

  const POSITIONS := 2000

  datatype Blink = Blink(location: Word, onChar: Byte, offChar: Byte,
                         onLength: Word, offLength: Word, countdown: Word, status: Word)
  {
    predicate On() {
      status % 2 == 1
    }

    /** What belongs on the screen at this moment. */
    function Shown(): Byte {
      if On() then onChar else offChar
    }

    function Decremented(): Word {
      (countdown + 0xFFFF) % 0x1_0000
    }

    /** `decw` then `jg`: the period is over unless the decremented word is positive as a signed one. */
    predicate Toggles() {
      !(1 <= Decremented() < 0x8000)
    }

    function Tick(): Blink {
      if !Toggles() then this.(countdown := Decremented())
      else if On() then this.(countdown := offLength, status := status - 1)
      else this.(countdown := onLength, status := status + 1)
    }
  }

  /** The list and the video memory; a position takes two bytes, the character first. */
  datatype Fish = Fish(list: seq<Blink>, video: seq<Byte>) {
    ghost predicate Ok() {
      && |video| == 2 * POSITIONS
      && forall i :: 0 <= i < |list| ==> 1 <= list[i].location < POSITIONS
    }
  }

  /** mp1_poke */
  function Poke(video: seq<Byte>, location: nat, c: Byte): seq<Byte>
    requires |video| == 2 * POSITIONS && location < POSITIONS
  {
    video[2 * location := c]
  }

  /** The first element at a location, or -1. */
  function FirstAt(list: seq<Blink>, location: Word): (k: int)
    ensures -1 <= k < |list|
    ensures k >= 0 ==> list[k].location == location && forall i :: 0 <= i < k ==> list[i].location != location
    ensures k == -1 ==> forall i :: 0 <= i < |list| ==> list[i].location != location
  {
    if list == [] then -1
    else if list[0].location == location then 0
    else var k := FirstAt(list[1..], location);
      if k == -1 then -1 else k + 1
  }

  lemma FirstAtIs(list: seq<Blink>, location: Word, k: int)
    requires -1 <= k < |list|
    requires k >= 0 ==> list[k].location == location
    requires forall i :: 0 <= i < (if k >= 0 then k else |list|) ==> list[i].location != location
    ensures FirstAt(list, location) == k
  {}

  /** What a successful ADD puts on the list. */
  function Started(b: Blink): Blink {
    b.(status := 1, countdown := b.onLength)
  }

  function Add(f: Fish, b: Blink): Fish
    requires f.Ok() && b.location < POSITIONS
  {
    Fish([Started(b)] + f.list, Poke(f.video, b.location, b.onChar))
  }

  function Without<T>(s: seq<T>, k: nat): (r: seq<T>)
    requires k < |s|
    ensures |r| == |s| - 1
    ensures forall i {:trigger r[i]} :: 0 <= i < |s| - 1 ==> r[i] == s[if i < k then i else i + 1]
  {
    s[..k] + s[k + 1..]
  }

  function Remove(f: Fish, location: Word): Fish {
    var k := FirstAt(f.list, location);
    if k == -1 then f else f.(list := Without(f.list, k))
  }

  /** Lengths, countdown and status of `from`, the rest of `to`. */
  function Synced(from: Blink, to: Blink): Blink {
    to.(onLength := from.onLength, offLength := from.offLength, countdown := from.countdown, status := from.status)
  }

  /** SYNC; the conditional move after `testb` never moves, so the off character is drawn. */
  function Sync(f: Fish, from: Word, to: Word): Fish
    requires f.Ok()
  {
    var i, j := FirstAt(f.list, from), FirstAt(f.list, to);
    if i == -1 || j == -1 then f else
      Fish(f.list[j := Synced(f.list[i], f.list[j])], Poke(f.video, to, f.list[j].offChar))
  }

  function TickList(list: seq<Blink>): seq<Blink> {
    seq(|list|, i requires 0 <= i < |list| => list[i].Tick())
  }

  function TickVideo(list: seq<Blink>, video: seq<Byte>): (v: seq<Byte>)
    requires Fish(list, video).Ok()
    ensures |v| == |video|
    decreases |list|
  {
    if list == [] then video else
      TickVideo(list[1..], if list[0].Toggles() then Poke(video, list[0].location, list[0].Tick().Shown()) else video)
  }

  function TickAll(f: Fish): Fish
    requires f.Ok()
  {
    Fish(TickList(f.list), TickVideo(f.list, f.video))
  }

  // ---- Closed form over time ----

  /** How many ticks a programmed length lasts: 0 and lengths above 0x8000 end at the next tick. */
  function Duration(length: Word): (d: nat)
    ensures 1 <= d <= 0x8000
  {
    if 1 <= length <= 0x8000 then length else 1
  }

  /** The blink is `age` ticks into an endless alternation of its on and off periods. */
  predicate HasAge(b: Blink, age: nat) {
    InPhase(b, age % Period(b))
  }

  function Period(b: Blink): (p: nat)
    ensures 2 <= p
  {
    Duration(b.onLength) + Duration(b.offLength)
  }

  /** The blink is `phase` ticks into its on period, or into its off period behind it. */
  predicate InPhase(b: Blink, phase: nat) {
    var on := Duration(b.onLength);
    if phase < on then b.status == 1 && b.countdown == b.onLength - phase
    else b.status == 0 && b.countdown == b.offLength - (phase - on)
  }

  lemma NextPhase(age: nat, period: nat)
    requires 2 <= period
    ensures (age + 1) % period == if age % period + 1 == period then 0 else age % period + 1
  {
    DivMod(age, period);
    var q, r := age / period, age % period;
    if r + 1 == period {
      assert age + 1 == (q + 1) * period + 0;
      DivModOf(q + 1, 0, period);
    } else {
      DivModOf(q, r + 1, period);
    }
  }

  lemma TickMovesPhase(b: Blink, phase: nat)
    requires InPhase(b, phase) && phase < Period(b)
    ensures InPhase(b.Tick(), if phase + 1 == Period(b) then 0 else phase + 1) && Period(b.Tick()) == Period(b)
  {}

  lemma TickAges(b: Blink, age: nat)
    requires HasAge(b, age)
    ensures HasAge(b.Tick(), age + 1)
  {
    hide InPhase, Period;
    NextPhase(age, Period(b));
    TickMovesPhase(b, age % Period(b));
  }

  function TickTimes(b: Blink, t: nat): Blink {
    if t == 0 then b else TickTimes(b, t - 1).Tick()
  }

  /** For all 16-bit lengths: `t` ticks after ADD the character is on iff t mod (on + off) < on. */
  lemma {:induction false} OnAfterTicks(b: Blink, t: nat)
    ensures var on, off := Duration(b.onLength), Duration(b.offLength);
            TickTimes(Started(b), t).On() <==> t % (on + off) < on
    ensures HasAge(TickTimes(Started(b), t), t)
    ensures TickTimes(Started(b), t).onLength == b.onLength && TickTimes(Started(b), t).offLength == b.offLength
  {
    hide HasAge, Period;
    if t == 0 {
      NewIsYoung(b);
    } else {
      OnAfterTicks(b, t - 1);
      TickAges(TickTimes(Started(b), t - 1), t - 1);
    }
    AgeShows(TickTimes(Started(b), t), t);
  }

  lemma AgeShows(b: Blink, age: nat)
    requires HasAge(b, age)
    ensures b.On() <==> age % (Duration(b.onLength) + Duration(b.offLength)) < Duration(b.onLength)
  {
    assert Period(b) == Duration(b.onLength) + Duration(b.offLength);
  }

  /** Synchronised characters stay in step for ever. */
  lemma {:induction false} SyncedStayEqual(from: Blink, to: Blink, t: nat)
    ensures var a, b := TickTimes(from, t), TickTimes(Synced(from, to), t);
            && a.status == b.status && a.countdown == b.countdown
            && a.onLength == b.onLength && a.offLength == b.offLength
  {
    if t != 0 {
      SyncedStayEqual(from, to, t - 1);
    }
  }

  // ---- Whole runs ----

  datatype Op = AddOp(b: Blink) | RemoveOp(location: Word) | FindOp(location: Word)
              | SyncOp(from: Word, to: Word) | TickOp

  /** ADD refuses locations off the screen and a 2001st element. */
  predicate Accepts(f: Fish, b: Blink) {
    b.location < POSITIONS && |f.list| < POSITIONS
  }

  function Step(f: Fish, op: Op): Fish
    requires f.Ok() && (op.AddOp? ==> op.b.location != 0)
  {
    match op
    case AddOp(b) => if Accepts(f, b) then Add(f, b) else f
    case RemoveOp(location) => Remove(f, location)
    case FindOp(_) => f
    case SyncOp(from, to) => Sync(f, from, to)
    case TickOp => TickAll(f)
  }

  /** The ages of the list's elements: ticks since ADD, or those of the element synchronised with. */
  function StepAges(f: Fish, ages: seq<nat>, op: Op): seq<nat>
    requires |ages| == |f.list|
  {
    match op
    case AddOp(b) => if Accepts(f, b) then [0] + ages else ages
    case RemoveOp(location) =>
      var k := FirstAt(f.list, location);
      if k == -1 then ages else Without(ages, k)
    case FindOp(_) => ages
    case SyncOp(from, to) =>
      var i, j := FirstAt(f.list, from), FirstAt(f.list, to);
      if i == -1 || j == -1 then ages else ages[j := ages[i]]
    case TickOp => seq(|ages|, i requires 0 <= i < |ages| => ages[i] + 1)
  }

  ghost predicate HaveAges(list: seq<Blink>, ages: seq<nat>) {
    |ages| == |list| && forall i :: 0 <= i < |list| ==> HasAge(list[i], ages[i])
  }

  lemma StepKeepsOk(f: Fish, op: Op)
    requires f.Ok() && (op.AddOp? ==> op.b.location != 0)
    ensures Step(f, op).Ok()
  {}

  lemma TickedHaveAges(f: Fish, ages: seq<nat>)
    requires f.Ok() && HaveAges(f.list, ages)
    ensures HaveAges(TickAll(f).list, StepAges(f, ages, TickOp))
  {
    hide HasAge, TickVideo;
    forall i | 0 <= i < |f.list| ensures HasAge(f.list[i].Tick(), ages[i] + 1) {
      TickAges(f.list[i], ages[i]);
    }
  }

  lemma NewIsYoung(b: Blink)
    ensures HasAge(Started(b), 0)
  {
    assert 0 % (Duration(b.onLength) + Duration(b.offLength)) == 0;
  }

  lemma SyncedHasAge(source: Blink, target: Blink, age: nat)
    requires HasAge(source, age)
    ensures HasAge(Synced(source, target), age)
  {}

  lemma StepHasAges(f: Fish, ages: seq<nat>, op: Op)
    requires f.Ok() && (op.AddOp? ==> op.b.location != 0) && HaveAges(f.list, ages)
    ensures HaveAges(Step(f, op).list, StepAges(f, ages, op))
  {
    hide HasAge, Synced, Without, TickAll;
    match op
    case AddOp(b) => NewIsYoung(b);
    case TickOp => TickedHaveAges(f, ages);
    case RemoveOp(location) =>
    case FindOp(_) =>
    case SyncOp(from, to) =>
      var i, j := FirstAt(f.list, from), FirstAt(f.list, to);
      if i != -1 && j != -1 {
        SyncedHasAge(f.list[i], f.list[j], ages[i]);
      }
  }

  function Run(f: Fish, ops: seq<Op>): (r: Fish)
    requires f.Ok() && forall op :: op in ops ==> op.AddOp? ==> op.b.location != 0
    ensures r.Ok()
    decreases |ops|
  {
    if ops == [] then f else
      StepKeepsOk(f, ops[0]);
      Run(Step(f, ops[0]), ops[1..])
  }

  function RunAges(f: Fish, ages: seq<nat>, ops: seq<Op>): seq<nat>
    requires f.Ok() && (forall op :: op in ops ==> op.AddOp? ==> op.b.location != 0) && HaveAges(f.list, ages)
    decreases |ops|
  {
    if ops == [] then ages else
      StepKeepsOk(f, ops[0]);
      StepHasAges(f, ages, ops[0]);
      RunAges(Step(f, ops[0]), StepAges(f, ages, ops[0]), ops[1..])
  }

  lemma {:induction false} RunKeepsAges(f: Fish, ages: seq<nat>, ops: seq<Op>)
    requires f.Ok() && (forall op :: op in ops ==> op.AddOp? ==> op.b.location != 0) && HaveAges(f.list, ages)
    ensures HaveAges(Run(f, ops).list, RunAges(f, ages, ops))
    decreases |ops|
  {
    if ops != [] {
      StepKeepsOk(f, ops[0]);
      StepHasAges(f, ages, ops[0]);
      hide HaveAges, Step, StepAges;
      RunKeepsAges(Step(f, ops[0]), StepAges(f, ages, ops[0]), ops[1..]);
    }
  }

  /** In every run from an empty list, every listed character is on exactly when its age says so. */
  lemma RunShowsPhases(video: seq<Byte>, ops: seq<Op>, i: nat)
    requires |video| == 2 * POSITIONS && forall op :: op in ops ==> op.AddOp? ==> op.b.location != 0
    requires i < |Run(Fish([], video), ops).list|
    ensures |RunAges(Fish([], video), [], ops)| == |Run(Fish([], video), ops).list|
    ensures var b, age := Run(Fish([], video), ops).list[i], RunAges(Fish([], video), [], ops)[i];
            b.On() <==> age % (Duration(b.onLength) + Duration(b.offLength)) < Duration(b.onLength)
  {
    RunKeepsAges(Fish([], video), [], ops);
    hide Run, RunAges;
    assert HasAge(Run(Fish([], video), ops).list[i], RunAges(Fish([], video), [], ops)[i]);
  }

  // ---- Where an element comes from ----

  /** The user structure of the ADD that put an element on the list, and that of the ADD whose lengths it has. */
  datatype Origin = Origin(user: Blink, timing: Blink)

  /** The origins of the list's elements, from the operations alone. */
  function StepOrigins(f: Fish, origins: seq<Origin>, op: Op): seq<Origin>
    requires |origins| == |f.list|
  {
    match op
    case AddOp(b) => if Accepts(f, b) then [Origin(b, b)] + origins else origins
    case RemoveOp(location) =>
      var k := FirstAt(f.list, location);
      if k == -1 then origins else Without(origins, k)
    case FindOp(_) => origins
    case SyncOp(from, to) =>
      var i, j := FirstAt(f.list, from), FirstAt(f.list, to);
      if i == -1 || j == -1 then origins else origins[j := Origin(origins[j].user, origins[i].timing)]
    case TickOp => origins
  }

  predicate ComesFrom(b: Blink, o: Origin) {
    && b.location == o.user.location && b.onChar == o.user.onChar && b.offChar == o.user.offChar
    && b.onLength == o.timing.onLength && b.offLength == o.timing.offLength
  }

  ghost predicate HaveOrigins(list: seq<Blink>, origins: seq<Origin>) {
    |origins| == |list| && forall i :: 0 <= i < |list| ==> ComesFrom(list[i], origins[i])
  }

  lemma StepHasOrigins(f: Fish, origins: seq<Origin>, op: Op)
    requires f.Ok() && (op.AddOp? ==> op.b.location != 0) && HaveOrigins(f.list, origins)
    ensures HaveOrigins(Step(f, op).list, StepOrigins(f, origins, op))
  {
    hide TickVideo, Without;
  }

  function RunOrigins(f: Fish, origins: seq<Origin>, ops: seq<Op>): seq<Origin>
    requires f.Ok() && (forall op :: op in ops ==> op.AddOp? ==> op.b.location != 0) && HaveOrigins(f.list, origins)
    decreases |ops|
  {
    if ops == [] then origins else
      StepKeepsOk(f, ops[0]);
      StepHasOrigins(f, origins, ops[0]);
      RunOrigins(Step(f, ops[0]), StepOrigins(f, origins, ops[0]), ops[1..])
  }

  /** In every run each listed element has the location and the characters of the ADD that put it there, and
      the lengths of that ADD or of the one behind the element it was last synchronised with. */
  lemma {:induction false} RunKeepsOrigins(f: Fish, origins: seq<Origin>, ops: seq<Op>)
    requires f.Ok() && (forall op :: op in ops ==> op.AddOp? ==> op.b.location != 0) && HaveOrigins(f.list, origins)
    ensures HaveOrigins(Run(f, ops).list, RunOrigins(f, origins, ops))
    decreases |ops|
  {
    if ops != [] {
      StepKeepsOk(f, ops[0]);
      StepHasOrigins(f, origins, ops[0]);
      hide HaveOrigins, Step, StepOrigins;
      RunKeepsOrigins(Step(f, ops[0]), StepOrigins(f, origins, ops[0]), ops[1..]);
    }
  }

  /** A successful ADD, then FIND at the location: the user's structure, on, at the start of its first period. */
  lemma FindAfterAdd(f: Fish, b: Blink)
    requires f.Ok() && 1 <= b.location < 2000 && |f.list| < 2000
    ensures var g := Step(f, AddOp(b)); var k := FirstAt(g.list, b.location);
      k == 0 && g.list[k] == Blink(b.location, b.onChar, b.offChar, b.onLength, b.offLength, b.onLength, 1)
  {}

  /** ADD is refused, and changes nothing, exactly for locations off the screen and for a full list. */
  lemma AddSucceedsExactly(f: Fish, b: Blink)
    requires f.Ok() && b.location != 0
    ensures Step(f, AddOp(b)) == f <==> b.location >= 2000 || |f.list| >= 2000
    ensures Step(f, AddOp(b)) != f ==> |Step(f, AddOp(b)).list| == |f.list| + 1
  {}

  // ---- The display ----

  ghost predicate Distinct(list: seq<Blink>) {
    forall i, j :: 0 <= i < j < |list| ==> list[i].location != list[j].location
  }

  /** Every listed character is on the screen as its status says. */
  ghost predicate Displayed(f: Fish)
    requires f.Ok()
  {
    forall i :: 0 <= i < |f.list| ==> f.video[2 * f.list[i].location] == f.list[i].Shown()
  }

  /** A tick touches no position but those of the list, and leaves the right character at each. */
  lemma {:induction false} TickVideoAt(list: seq<Blink>, video: seq<Byte>)
    requires Fish(list, video).Ok() && Distinct(list)
    ensures forall i :: 0 <= i < |list| ==>
      TickVideo(list, video)[2 * list[i].location]
        == if list[i].Toggles() then list[i].Tick().Shown() else video[2 * list[i].location]
    ensures forall p :: 0 <= p < |video| && (forall i :: 0 <= i < |list| ==> p != 2 * list[i].location) ==>
      TickVideo(list, video)[p] == video[p]
    decreases |list|
  {
    if list != [] {
      var b, rest := list[0], list[1..];
      var v := if b.Toggles() then Poke(video, b.location, b.Tick().Shown()) else video;
      TickVideoAt(rest, v);
      assert forall i :: 1 <= i < |list| ==> list[i] == rest[i - 1];
      assert forall i :: 0 <= i < |rest| ==> 2 * b.location != 2 * rest[i].location;
    }
  }

  lemma TickKeepsDisplay(f: Fish)
    requires f.Ok() && Distinct(f.list) && Displayed(f)
    ensures TickAll(f).Ok() && Displayed(TickAll(f)) && Distinct(TickAll(f).list)
  {
    TickVideoAt(f.list, f.video);
  }

  lemma AddKeepsDisplay(f: Fish, b: Blink)
    requires f.Ok() && Distinct(f.list) && Displayed(f)
    requires 1 <= b.location < POSITIONS && FirstAt(f.list, b.location) == -1
    ensures Add(f, b).Ok() && Displayed(Add(f, b)) && Distinct(Add(f, b).list)
  {}

  /** SYNC leaves the display right exactly when the copied status is off (or the characters agree). */
  lemma SyncDisplay(f: Fish, from: Word, to: Word)
    requires f.Ok() && Distinct(f.list) && Displayed(f)
    requires FirstAt(f.list, from) != -1 && FirstAt(f.list, to) != -1
    ensures Sync(f, from, to).Ok()
    ensures var source, target := f.list[FirstAt(f.list, from)], f.list[FirstAt(f.list, to)];
            Displayed(Sync(f, from, to)) <==> (!source.On() || target.onChar == target.offChar)
  {
    var j := FirstAt(f.list, to);
    var g := Sync(f, from, to);
    assert g.list[j].location == to;
    assert forall i :: 0 <= i < |g.list| && i != j ==> g.list[i] == f.list[i] && g.list[i].location != to;
  }

  /** All elements at one location show the same. */
  ghost predicate Agree(list: seq<Blink>) {
    forall i, j :: 0 <= i < |list| && 0 <= j < |list| && list[i].location == list[j].location
      ==> list[i].Shown() == list[j].Shown()
  }

  /** What a tick leaves at a location whose elements all want the same character there. */
  lemma {:induction false} TickLeaves(list: seq<Blink>, video: seq<Byte>, location: Word, c: Byte)
    requires Fish(list, video).Ok() && 1 <= location < POSITIONS
    requires forall i :: 0 <= i < |list| && list[i].location == location ==> list[i].Tick().Shown() == c
    requires video[2 * location] == c
          || exists i :: 0 <= i < |list| && list[i].location == location && list[i].Toggles()
    ensures TickVideo(list, video)[2 * location] == c
    decreases |list|
  {
    if list != [] {
      var b, rest := list[0], list[1..];
      var v := if b.Toggles() then Poke(video, b.location, b.Tick().Shown()) else video;
      assert forall i :: 1 <= i < |list| ==> list[i] == rest[i - 1];
      TickLeaves(rest, v, location, c);
    }
  }

  /** With any list, several elements at one location included: a tick keeps the display right exactly when
      those elements agree afterwards. */
  lemma TickDisplays(f: Fish)
    requires f.Ok() && Displayed(f)
    ensures TickAll(f).Ok() && (Displayed(TickAll(f)) <==> Agree(TickAll(f).list))
  {
    var g := TickAll(f);
    if Agree(g.list) {
      forall i | 0 <= i < |g.list| ensures g.video[2 * g.list[i].location] == g.list[i].Shown() {
        assert forall j :: 0 <= j < |f.list| ==> g.list[j] == f.list[j].Tick();
        TickLeaves(f.list, f.video, f.list[i].location, g.list[i].Shown());
      }
    }
  }

  /** The operation finds and leaves at every place it draws what all elements there want to show. */
  ghost predicate DrawsRight(f: Fish, op: Op)
    requires f.Ok()
  {
    match op
    case AddOp(b) =>
      Accepts(f, b) ==>
        forall i :: 0 <= i < |f.list| && f.list[i].location == b.location ==> f.list[i].Shown() == b.onChar
    case RemoveOp(_) => true
    case FindOp(_) => true
    case SyncOp(from, to) =>
      var i, j := FirstAt(f.list, from), FirstAt(f.list, to);
      i != -1 && j != -1 ==>
        && (!f.list[i].On() || f.list[j].onChar == f.list[j].offChar)
        && forall n :: 0 <= n < |f.list| && n != j && f.list[n].location == to
             ==> f.list[n].Shown() == f.list[j].offChar
    case TickOp => Agree(TickList(f.list))
  }

  /** One operation keeps the display right exactly when it draws right. */
  lemma StepDisplays(f: Fish, op: Op)
    requires f.Ok() && (op.AddOp? ==> op.b.location != 0) && Displayed(f)
    ensures Step(f, op).Ok() && (Displayed(Step(f, op)) <==> DrawsRight(f, op))
  {
    match op
    case AddOp(b) => AddDisplays(f, b);
    case RemoveOp(location) => RemoveDisplays(f, location);
    case FindOp(_) =>
    case SyncOp(from, to) => SyncDisplays(f, from, to);
    case TickOp => TickDisplays(f);
  }

  lemma AddDisplays(f: Fish, b: Blink)
    requires f.Ok() && b.location != 0 && Displayed(f)
    ensures Step(f, AddOp(b)).Ok() && (Displayed(Step(f, AddOp(b))) <==> DrawsRight(f, AddOp(b)))
  {
    if Accepts(f, b) {
      var g := Add(f, b);
      assert g.list[0].location == b.location && g.list[0].Shown() == b.onChar;
      assert forall i :: 0 <= i < |f.list| ==> g.list[i + 1] == f.list[i];
    }
  }

  lemma RemoveDisplays(f: Fish, location: Word)
    requires f.Ok() && Displayed(f)
    ensures Step(f, RemoveOp(location)).Ok() && Displayed(Step(f, RemoveOp(location)))
  {
    hide Without;
  }

  lemma SyncDisplays(f: Fish, from: Word, to: Word)
    requires f.Ok() && Displayed(f)
    ensures Step(f, SyncOp(from, to)).Ok()
    ensures Displayed(Step(f, SyncOp(from, to))) <==> DrawsRight(f, SyncOp(from, to))
  {
    var i, j := FirstAt(f.list, from), FirstAt(f.list, to);
    if i != -1 && j != -1 {
      var g := Sync(f, from, to);
      assert g.list[j].location == to && g.video[2 * to] == f.list[j].offChar;
      assert g.list[j].Shown() == f.list[j].offChar <==> (!f.list[i].On() || f.list[j].onChar == f.list[j].offChar);
      assert forall n :: 0 <= n < |f.list| && n != j ==> g.list[n] == f.list[n];
    }
  }

  ghost predicate RunDrawsRight(f: Fish, ops: seq<Op>)
    requires f.Ok() && forall op :: op in ops ==> op.AddOp? ==> op.b.location != 0
    decreases |ops|
  {
    ops == [] || (StepKeepsOk(f, ops[0]); DrawsRight(f, ops[0]) && RunDrawsRight(Step(f, ops[0]), ops[1..]))
  }

  ghost predicate AlwaysDisplayed(f: Fish, ops: seq<Op>)
    requires f.Ok() && forall op :: op in ops ==> op.AddOp? ==> op.b.location != 0
    decreases |ops|
  {
    Displayed(f) && (ops == [] || (StepKeepsOk(f, ops[0]); AlwaysDisplayed(Step(f, ops[0]), ops[1..])))
  }

  /** In a run the display is right throughout exactly when each operation draws right where it occurs. */
  lemma {:induction false} RunDisplays(f: Fish, ops: seq<Op>)
    requires f.Ok() && (forall op :: op in ops ==> op.AddOp? ==> op.b.location != 0) && Displayed(f)
    ensures AlwaysDisplayed(f, ops) <==> RunDrawsRight(f, ops)
    decreases |ops|
  {
    if ops != [] {
      StepDisplays(f, ops[0]);
      if Displayed(Step(f, ops[0])) {
        hide Step, DrawsRight, Displayed;
        RunDisplays(Step(f, ops[0]), ops[1..]);
      }
    }
  }

  lemma {:induction false} AlwaysDisplayedAtEnd(f: Fish, ops: seq<Op>)
    requires f.Ok() && (forall op :: op in ops ==> op.AddOp? ==> op.b.location != 0) && AlwaysDisplayed(f, ops)
    ensures Displayed(Run(f, ops))
    decreases |ops|
  {
    if ops != [] {
      StepKeepsOk(f, ops[0]);
      hide Step, Displayed;
      AlwaysDisplayedAtEnd(Step(f, ops[0]), ops[1..]);
    }
  }

  lemma ShownByAge(b: Blink, age: nat, o: Origin)
    requires HasAge(b, age) && ComesFrom(b, o)
    ensures b.Shown() == CharAt(o, age)
  {
    hide HasAge, Period;
    AgeShows(b, age);
  }

  /** What the user sees of an element: its on character for its on length, its off character for its off
      length, over and over. */
  function CharAt(o: Origin, age: nat): Byte {
    var on, off := Duration(o.timing.onLength), Duration(o.timing.offLength);
    if age % (on + off) < on then o.user.onChar else o.user.offChar
  }

  /** After a run from the empty list in which every operation draws right, the screen shows at the location of
      each element the character the user gave it for its age. */
  lemma RunShowsUserCharacters(video: seq<Byte>, ops: seq<Op>, i: nat)
    requires |video| == 2 * POSITIONS && forall op :: op in ops ==> op.AddOp? ==> op.b.location != 0
    requires RunDrawsRight(Fish([], video), ops) && i < |Run(Fish([], video), ops).list|
    ensures |RunOrigins(Fish([], video), [], ops)| == |RunAges(Fish([], video), [], ops)|
            == |Run(Fish([], video), ops).list|
    ensures var f, o, age := Run(Fish([], video), ops), RunOrigins(Fish([], video), [], ops)[i],
                             RunAges(Fish([], video), [], ops)[i];
      1 <= o.user.location < 2000 && f.video[2 * o.user.location] == CharAt(o, age)
  {
    hide Run, RunAges, RunOrigins, RunDrawsRight, AlwaysDisplayed, HasAge, CharAt;
    var start := Fish([], video);
    RunKeepsAges(start, [], ops);
    RunKeepsOrigins(start, [], ops);
    RunDisplays(start, ops);
    AlwaysDisplayedAtEnd(start, ops);
    ShownByAge(Run(start, ops).list[i], RunAges(start, [], ops)[i], RunOrigins(start, [], ops)[i]);
  }

  /** In particular from the empty list, over any screen. */
  lemma EmptyListDisplays(video: seq<Byte>, ops: seq<Op>)
    requires |video| == 2 * POSITIONS && forall op :: op in ops ==> op.AddOp? ==> op.b.location != 0
    ensures AlwaysDisplayed(Fish([], video), ops) <==> RunDrawsRight(Fish([], video), ops)
  {
    RunDisplays(Fish([], video), ops);
  }

  /** Without two elements at one location a tick always draws right, and so does ADD at a new location. */
  lemma DistinctDrawRight(f: Fish, b: Blink)
    requires f.Ok() && Distinct(f.list)
    ensures DrawsRight(f, TickOp)
    ensures FirstAt(f.list, b.location) == -1 ==> DrawsRight(f, AddOp(b))
  {}

  /** Two characters just added, the second synchronised with the first: both are on, but the second
      shows its off character. */
  lemma SyncShowsOffCharacter(video: seq<Byte>)
    requires |video| == 2 * POSITIONS
    ensures var f := Add(Add(Fish([], video), Blink(60, 73, 77, 7, 6, 0, 0)), Blink(40, 65, 66, 15, 15, 0, 0));
            var g := Sync(f, 40, 60);
            g.list[1].On() && g.list[1].location == 60 && g.video[2 * 60] == g.list[1].offChar != g.list[1].Shown()
  {}
}
