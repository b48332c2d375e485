/** How a build ends, told by what the outside did, and what is answered about it. */
module PrepareOutcomes {
  import opened Prelude
  import opened Prepare

  /** The finished build took the artifact's place. */
  predicate Placed(d: Disk, f: Fate) {
    f.made && f.builds && (d.out.None? || f.drops) && f.renames
  }

  lemma LastEnd(a: seq<Disk>, b: seq<Disk>)
    requires b != []
    ensures a + b != [] && (a + b)[|a + b| - 1] == b[|b| - 1]
  {
  }

  lemma ReplaceOutcome(d: Disk, f: Fate)
    requires d.scratch == Some(Finished) && forall k :: f.record(k)
    ensures var t := Replace(d, f);
      var placed := (d.out.None? || f.drops) && f.renames;
      && t != [] && var z := t[|t| - 1];
      && z.progress == Some(if placed && f.creates && f.writes then "prepared" else "failed")
      && z.out == (if placed then Some(Finished) else if d.out.None? || f.drops then None else Some(Partial))
      && z.marker == (d.marker || (placed && f.creates))
  {
    var clearing := ClearOut(d, f.drops);
    var c := Last(d, clearing);
    if (d.out.None? || f.drops) && f.renames {
      var r := c.(out := c.scratch, scratch := None);
      assert Replace(d, f) == clearing + ([r] + Mark(r, f));
      LastEnd(clearing, [r] + Mark(r, f));
      LastEnd([r], Mark(r, f));
    } else {
      LastEnd(clearing, Fail(c, f));
    }
  }

  /** With every note recorded a build ends in "prepared" exactly when the builder
      succeeded, its output took the artifact's place and the marker was written, and
      otherwise in "failed". The artifact is then the finished build, or what it was, or,
      where it was cleared for a build that did not come, nothing or a part; and the marker
      stands if it did before or was made. */
  lemma RunOutcome(d: Disk, f: Fate)
    requires forall k :: f.record(k)
    ensures var t := Run(d, f);
      && t != [] && var z := t[|t| - 1];
      && z.progress == Some(if Placed(d, f) && f.creates && f.writes then "prepared" else "failed")
      && z.out == (if Placed(d, f) then Some(Finished)
                   else if !f.made || !f.builds then d.out
                   else if d.out.None? || f.drops then None
                   else Some(Partial))
      && z.marker == (d.marker || (Placed(d, f) && f.creates))
  {
    hide Replace;
    var begun := Note(d, "preparing", f);
    var clearing := ClearScratch(begun, f.clears);
    var c := Last(begun, clearing);
    var making := c.(scratch := Some(Partial));
    if f.made && f.builds {
      var built := making.(scratch := Some(Finished));
      ReplaceOutcome(built, f);
      LastEnd([begun] + clearing + [making, built], Replace(built, f));
    } else if f.made {
      var undone := ClearScratch(making, f.clears);
      LastEnd([begun] + clearing + [making] + undone, Fail(Last(making, undone), f));
    } else {
      LastEnd([begun] + clearing, Fail(c, f));
    }
  }

  /** A marker that was seen is answered as prepared; without one a unit at work as
      preparing, a failure on record as failed, and anything else as preparing, and only
      then, and only with the marker looked for, is a build started. */
  lemma StatusExact(n: Node)
    ensures n.seen == Some(true) ==> Status(n) == "prepared"
    ensures n.seen != Some(true) && n.unit.Some? ==> Status(n) == "preparing"
    ensures n.seen != Some(true) && n.unit.None? ==>
      Status(n) == if n.disk.progress == Some("failed") then "failed" else "preparing"
    ensures WillStart(n) <==> n.seen == Some(false) && n.unit.None? && Status(n) == "preparing"
  {
  }
}
