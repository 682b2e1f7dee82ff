/**
 The self-programming interface of an AVR flash memory: a paged flash and the
 temporary page buffer in front of it. Programming can only clear bits, so a page
 that was not erased first keeps its zeros; writing a page empties the buffer.
 The geometry is that of the AT90USB1287 for which the bootloaders are configured.
 */
module Flash {
  import opened Bytes

  const PAGE_SIZE := 256
  const FLASH_SIZE := 0x20000
  const BOOT_START := 0x1E000
  const BLANK: byte := 0xFF

  type FlashBytes = f: seq<byte> | |f| == FLASH_SIZE witness seq(FLASH_SIZE, _ => 0xFF)
  type PageBuffer = b: seq<byte> | |b| == PAGE_SIZE witness seq(PAGE_SIZE, _ => 0xFF)

  datatype Memory = Memory(flash: FlashBytes, buffer: PageBuffer)

  function BitAnd(a: nat, b: nat): (r: nat)
    ensures r <= a
  {
    if a == 0 then 0 else 2 * BitAnd(a / 2, b / 2) + (if a % 2 == 1 && b % 2 == 1 then 1 else 0)
  }

  /** A blank cell takes the programmed value, and a blank value leaves the cell alone. */
  lemma BlankIsNeutral(b: byte)
    ensures BitAnd(BLANK, b) == b
    ensures BitAnd(b, BLANK) == b
  {
    OnesAreNeutral(8, BLANK, b);
  }

  lemma {:induction false} OnesAreNeutral(bits: nat, ones: nat, b: nat)
    requires ones == Power2(bits) - 1 && b <= ones
    ensures BitAnd(ones, b) == b && BitAnd(b, ones) == b
    decreases bits
  {
    if bits == 0 {
    } else {
      OnesAreNeutral(bits - 1, ones / 2, b / 2);
    }
  }

  function Power2(n: nat): nat {
    if n == 0 then 1 else 2 * Power2(n - 1)
  }

  /** The start of the page that holds an address; high address bits are not connected. */
  function PageOf(address: nat): nat {
    address % FLASH_SIZE / PAGE_SIZE * PAGE_SIZE
  }

  predicate InPage(i: int, page: int) {
    page <= i < page + PAGE_SIZE
  }

  function EmptyBuffer(): PageBuffer {
    seq(PAGE_SIZE, _ => BLANK)
  }

  /** `boot_page_erase`. */
  function Erase(m: Memory, address: nat): Memory {
    var page := PageOf(address);
    m.(flash := seq<byte>(FLASH_SIZE, i requires 0 <= i < FLASH_SIZE => if InPage(i, page) then BLANK else m.flash[i]))
  }

  /** `boot_page_fill`: one little-endian word into the buffer. */
  function Fill(m: Memory, address: nat, low: byte, high: byte): Memory {
    var at := address % PAGE_SIZE / 2 * 2;
    m.(buffer := m.buffer[at := low][at + 1 := high])
  }

  /** `boot_page_write`. */
  function WritePage(m: Memory, address: nat): Memory {
    var page := PageOf(address);
    Memory(
      seq<byte>(FLASH_SIZE, i requires 0 <= i < FLASH_SIZE =>
        if InPage(i, page) then BitAnd(m.flash[i], m.buffer[i - page]) else m.flash[i]),
      EmptyBuffer())
  }

  /** Writing a page that is blank there puts the buffer's byte in it, and leaves other pages alone. */
  lemma WrittenByte(m: Memory, page: nat, i: nat)
    requires PageOf(page) == page && i < FLASH_SIZE && (InPage(i, page) ==> m.flash[i] == BLANK)
    ensures WritePage(m, page).flash[i] == if InPage(i, page) then m.buffer[i - page] else m.flash[i]
  {
    if InPage(i, page) {
      BlankIsNeutral(m.buffer[i - page]);
    }
  }

  /** The three operations of the boot interface. */
  datatype Ops = Ops(
    erase: (Memory, nat) -> Memory,
    fill: (Memory, nat, byte, byte) -> Memory,
    write: (Memory, nat) -> Memory)

  function BootOps(): Ops {
    Ops(Erase, Fill, WritePage)
  }

  // ----- Pages of an address

  /** An address without its offset in the page. */
  function PageStart(k: nat): nat {
    k / PAGE_SIZE * PAGE_SIZE
  }

  lemma PageArithmetic(k: nat)
    requires k % 2 == 0
    ensures PageStart(k) <= k < PageStart(k) + PAGE_SIZE
    ensures if k + 2 == PageStart(k) + PAGE_SIZE then PageStart(k + 2) == k + 2 else PageStart(k + 2) == PageStart(k)
    ensures k < FLASH_SIZE ==> PageOf(k) == PageStart(k) && PageOf(PageStart(k)) == PageStart(k)
    ensures k % PAGE_SIZE == k - PageStart(k)
  {
  }
}
