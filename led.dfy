/**
 * blinklib_led.cpp: the copy of the pixel buffer the warm-sleep animation
 * saves before it draws and restores when it is done.
 */
module LedState {
  import opened Bios

  class Led {
    /** `buffer_`: the saved pixels. */
    const buffer: array<Pixel>

    /** The saved copy is its own array of PIXEL_COUNT entries, apart from the BIOS pixel buffer. */
    predicate Valid(bios: Bios)
    {
      buffer.Length == PIXEL_COUNT && bios.pixels.Length == PIXEL_COUNT && buffer != bios.pixels
    }

    /** `buffer_` is a zero-filled static array of its own. */
    constructor ()
      ensures fresh(buffer) && buffer.Length == PIXEL_COUNT
      ensures forall i :: 0 <= i < PIXEL_COUNT ==> buffer[i] == 0
    {
      buffer := new Pixel[PIXEL_COUNT](_ => 0);
    }

    /** `SaveState`: copies the PIXEL_COUNT pixels into the saved buffer; the screen is untouched. */
    method SaveState(bios: Bios)
      requires Valid(bios)
      modifies buffer
      ensures buffer[..] == bios.pixels[..]
      ensures bios.pixels[..] == old(bios.pixels[..])
    {
      for i := 0 to PIXEL_COUNT
        invariant buffer[..i] == bios.pixels[..i]
      {
        buffer[i] := bios.pixels[i];
      }
    }

    /** `RestoreState`: copies the saved pixels back onto the screen; the saved buffer is untouched. */
    method RestoreState(bios: Bios)
      requires Valid(bios)
      modifies bios.pixels
      ensures bios.pixels[..] == buffer[..]
      ensures buffer[..] == old(buffer[..])
    {
      for i := 0 to PIXEL_COUNT
        invariant bios.pixels[..i] == buffer[..i]
      {
        bios.pixels[i] := buffer[i];
      }
    }
  }
}
