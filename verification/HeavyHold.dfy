/**
 What a heavy operation holds: the gate (command_handler.c) and, while it reads PSRAM, one take of the shared bus.
 */
module HeavyHold {
  import opened BusOwner

  const NONE := -1     // heavy_owner when nobody holds the gate
  const WORKER := 1    // every bus user runs on the hw worker task

  datatype Hold = Hold(owner: int, bus: Bus)

  // heavy_release
  function Freed(h: Hold, c: int): Hold {
    if h.owner == c then h.(owner := NONE) else h
  }

  // psram_bus_release, through fpga_capture_psram_release
  function Given(h: Hold): Hold {
    h.(bus := Apply(h.bus, Give(WORKER)).0)
  }

  // How a reply of connection c leaves things, whichever way it ends.
  function Left(h: Hold, c: int, fromPsram: bool): Hold {
    Freed(if fromPsram then Given(h) else h, c)
  }

  /** From what a reply holds while it runs, that is everything given back and nothing twice. */
  lemma LeavesNothing(c: nat, fromPsram: bool)
    ensures var held := if fromPsram then Bus(WORKER, 1, 0, 0) else Bus(NOBODY, 0, 0, 0);
            Left(Hold(c, held), c, fromPsram) == Hold(NONE, Bus(NOBODY, 0, 0, 0))
  {
  }

  class Grip {
    var hold: Hold

    constructor (h: Hold)
      ensures hold == h
    {
      hold := h;
    }

    method BusRelease()
      modifies this
      ensures hold == Given(old(hold))
    {
      hold := hold.(bus := Apply(hold.bus, Give(WORKER)).0);
    }

    method HeavyRelease(c: int)
      modifies this
      ensures hold == Freed(old(hold), c)
    {
      if hold.owner == c { hold := hold.(owner := NONE); }
    }
  }
}
