/**
 The pairing rule across programs: the firmware's partition number, the devices of
 the agents, and the root slots whose device names the server predicts.
 */
module BootSlots {
  import opened ByteStrings
  import opened Autoboot
  import opened OtaBoard
  import opened PcrPrediction

  /** The root slot that the kernel command line of a pair names. */
  function SlotOf(pair: int): Slot
    requires IsPair(pair)
  {
    if pair == 1 then A else B
  }

  /** The contents of a root device, by its name. */
  function RootAt(d: Disk, device: string): Option<Bytes> {
    if device == "/dev/mmcblk0p3" then Some(d.p3)
    else if device == "/dev/mmcblk0p4" then Some(d.p4)
    else None
  }

  function BootAt(d: Disk, device: string): Option<BootFs> {
    if device == "/dev/mmcblk0p1" then Some(d.p1)
    else if device == "/dev/mmcblk0p2" then Some(d.p2)
    else None
  }

  /** Pair 1 is p1 with p3, pair 2 is p2 with p4. */
  lemma Pairing(d: Disk)
    ensures Some(BootOf(d, 1)) == BootAt(d, "/dev/mmcblk0p1") && Some(RootOf(d, 1)) == RootAt(d, "/dev/mmcblk0p3")
    ensures Some(BootOf(d, 2)) == BootAt(d, "/dev/mmcblk0p2") && Some(RootOf(d, 2)) == RootAt(d, "/dev/mmcblk0p4")
  {
    assert "/dev/mmcblk0p4"[13] != "/dev/mmcblk0p3"[13] && "/dev/mmcblk0p2"[13] != "/dev/mmcblk0p1"[13];
  }

  /**
   The command line predicted for a pair's slot names the device that holds the
   pair's root: the one that install writes and the trial mounts.
   */
  lemma PredictedRootIsWritten(d: Disk, pair: int, device: string)
    requires IsPair(pair) && (forall i :: 0 <= i < |device| ==> device[i] as int < 128)
    requires RootDevice(SlotOf(pair)) == Ascii(device)
    ensures RootAt(d, device) == Some(RootOf(d, pair))
  {
    var name := if pair == 1 then "/dev/mmcblk0p3" else "/dev/mmcblk0p4";
    assert RootDevice(SlotOf(pair)) == Ascii(name);
    assert |device| == |name|;
    forall i | 0 <= i < |device| ensures device[i] == name[i] {
      assert Ascii(device)[i] == Ascii(name)[i];
    }
    assert device == name;
    Pairing(d);
    if pair == 2 { assert "/dev/mmcblk0p4"[13] != "/dev/mmcblk0p3"[13]; }
  }
}
