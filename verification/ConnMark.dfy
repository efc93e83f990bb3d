/** The bits of a connection mark and the fields they stand for. */
module ConnMark {

  const DROP_BIT: bv32 := 0x8000_0000
  const CLIENT_HELLO_BIT: bv32 := 0x4000_0000
  const IGNORE_BIT: bv32 := 0x2000_0000

  /** Application ids; larger ones would lie outside the rule table. */
  type AppId = n: int | 0 <= n < 0x1_0000

  /** `spare` holds the bits that the hook neither reads nor changes. */
  datatype Mark = Mark(app: AppId, drop: bool, hello: bool, ignore: bool, spare: bv32)

  const NO_MARK := Mark(0, false, false, false, 0)

  function Fields(m: bv32): Mark {
    Mark((m & 0xffff) as int, m & DROP_BIT == DROP_BIT, m & CLIENT_HELLO_BIT != 0, m & IGNORE_BIT == IGNORE_BIT, m & 0x1fff_0000)
  }

  lemma ZeroMark(m: bv32)
    ensures m == 0 <==> Fields(m) == NO_MARK
  {
  }

  method SetDrop(m: bv32) returns (r: bv32)
    ensures Fields(r) == Fields(m).(drop := true)
  {
    r := m | DROP_BIT;
  }

  method ClearDrop(m: bv32) returns (r: bv32)
    ensures Fields(r) == Fields(m).(drop := false)
  {
    r := m & !DROP_BIT;
  }

  method SetHello(m: bv32) returns (r: bv32)
    ensures Fields(r) == Fields(m).(hello := true)
  {
    r := m | CLIENT_HELLO_BIT;
  }

  method ClearHello(m: bv32) returns (r: bv32)
    ensures Fields(r) == Fields(m).(hello := false)
  {
    r := m & !CLIENT_HELLO_BIT;
  }

  method SetIgnore(m: bv32) returns (r: bv32)
    ensures Fields(r) == Fields(m).(ignore := true)
  {
    r := m | IGNORE_BIT;
  }

  method SetApp(m: bv32, app: bv32) returns (r: bv32)
    requires app < 0x1_0000
    ensures Fields(r) == Fields(m).(app := app as int)
  {
    r := (m & 0xffff_0000) | (app & 0xffff);
    assert r & 0xffff == app;
  }

  /** Where the fields lie. */
  lemma BitLayout(m: bv32)
    ensures Fields(m).drop <==> m >= 0x8000_0000
    ensures Fields(m).hello <==> m & 0x4000_0000 != 0
    ensures Fields(m).ignore <==> m & 0x2000_0000 != 0
    ensures Fields(m).app == (m & 65535) as int
  {
  }
}
