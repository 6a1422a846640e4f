/**
 The bounds-latched emitter of bp_json.c: what was written is always a NUL-terminated text inside the buffer, and the
 latch says whether anything was left out.
 */
module JsonEmitter {
  import opened JsonText

  class Emitter {
    const buf: array<char>
    var len: nat
    var ok: bool

    ghost predicate Valid()
      reads this, buf
    {
      if buf.Length == 0 then !ok else len < buf.Length && buf[len] == NUL
    }

    // The text in the buffer.
    ghost function Contents(): string
      reads this, buf
      requires Valid()
    {
      if buf.Length == 0 then "" else buf[..len]
    }

    // What an emit call does: it writes x whole, or latches and writes only a part.
    twostate predicate Emitted(x: string, pieces: bool)
      reads this, buf
      requires old(Valid()) && Valid()
    {
      && ok == (old(ok) && old(len) + |x| < buf.Length)
      && (ok ==> Contents() == old(Contents()) + x)
      && (!ok ==> old(Contents()) <= Contents() <= old(Contents()) + x)
      && (!ok && (!pieces || !old(ok)) ==> Contents() == old(Contents()))
    }

    // bp_emit_init
    constructor (b: array<char>)
      modifies b
      ensures Valid() && buf == b && Contents() == "" && ok == (b.Length > 0)
    {
      buf, len, ok := b, 0, b.Length > 0;
      new;
      if b.Length > 0 { b[0] := NUL; }
    }

    // emit_bytes, and with it bp_emit and bp_emit_raw on text that has been formatted
    method EmitBytes(x: string)
      requires Valid()
      modifies this, buf
      ensures Valid() && Emitted(x, false)
    {
      if !ok { return; }
      if |x| + 1 > buf.Length - len {
        ok := false;
        return;
      }
      ghost var was := buf[..len];
      var i := 0;
      while i < |x|
        invariant 0 <= i <= |x| && len == old(len) && ok && buf[..len + i] == was + x[..i]
      {
        buf[len + i] := x[i];
        assert buf[..len + i + 1] == buf[..len + i] + [x[i]];
        assert x[..i + 1] == x[..i] + [x[i]];
        i := i + 1;
      }
      assert x[..i] == x;
      len := len + |x|;
      ghost var now := buf[..len];
      buf[len] := NUL;
      assert buf[..len] == now;
    }

    /** bp_emit_jstr: the quoted, escaped text whole, or the latch. */
    method EmitString(x: string)
      requires Valid()
      modifies this, buf
      ensures Valid() && Emitted(Quoted(x), true)
    {
      hide EscapedChar, Escaped;
      ghost var was, ok0, len0 := Contents(), ok, len;
      EmitBytes("\"");
      ghost var done := "\"";
      assert x[0..] == x;
      var i := 0;
      while i < |x| && ok
        invariant 0 <= i <= |x| && Valid()
        invariant "\"" + Escaped(x) == done + Escaped(x[i..])
        invariant was <= Contents() && (!ok0 ==> !ok && Contents() == was)
        invariant ok ==> ok0 && Contents() == was + done && len == len0 + |done|
        invariant !ok && ok0 ==> len0 + |done| >= buf.Length && Contents() <= was + done
      {
        EscapedFrom(x, i);
        var e := EscapedChar(x[i]);
        Regroup(done, e, Escaped(x[i + 1..]));
        EmitBytes(e);
        Regroup(was, done, e);
        done, i := done + e, i + 1;
      }
      QuotedEnds(x, i, done, ok);
      Regroup(was, done, "\"");
      EmitBytes("\"");
    }
  }

  lemma QuotedEnds(x: string, i: nat, done: string, whole: bool)
    requires i <= |x| && "\"" + Escaped(x) == done + Escaped(x[i..]) && (whole ==> i == |x|)
    ensures |Quoted(x)| > |done| && (whole ==> Quoted(x) == done + "\"")
  {
    hide Escaped;
    EscapedEmpty();
    assert whole ==> x[i..] == "";
    Regroup("\"", Escaped(x), "\"");
    assert |Quoted(x)| == |done + Escaped(x[i..])| + 1;
  }

  lemma EscapedFrom(x: string, i: nat)
    requires i < |x|
    ensures Escaped(x[i..]) == EscapedChar(x[i]) + Escaped(x[i + 1..])
  {
    hide EscapedChar;
    assert x[i..][1..] == x[i + 1..];
  }

  lemma EscapedEmpty()
    ensures Escaped("") == ""
  {
  }
}
