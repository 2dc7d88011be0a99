/** msgbuf.c: a growable byte queue between a socket and a message handler. */
module MsgBufs {
  import opened Bytes

  class MsgBuf {
    var buf: array<byte>
    var len: int
    var start: int
    var end: int
    ghost var fed: seq<byte>       // every byte put in since the last clear
    ghost var drained: seq<byte>   // every byte taken out since the last clear

    /** The bytes out are a prefix of the bytes in, and what is buffered is the rest. A buffer
        that runs empty starts over at offset 0, so reading buf[start] is always in bounds. */
    ghost predicate Valid()
      reads this, buf
    {
      && len == buf.Length && 1 <= len
      && 0 <= start <= end <= len
      && (start < end || end == 0)
      && fed == drained + buf[start..end]
    }

    function Contents(): seq<byte>
      reads this, buf
      requires 0 <= start <= end <= buf.Length
    {
      buf[start..end]
    }

    /** The next read has at least one byte of space. */
    predicate HasRoom()
      reads this
    {
      end < len
    }

    /** msgbuf_new */
    constructor (bufsize: int)
      requires bufsize >= 1
      ensures Valid() && fresh(buf) && HasRoom()
      ensures len == bufsize && Contents() == [] && fed == [] && drained == []
    {
      len := bufsize;
      buf := new byte[bufsize];
      start, end := 0, 0;
      fed, drained := [], [];
    }

    /** msgbuf_count_buffered */
    function Buffered(): int
      reads this
    {
      end - start
    }

    /** msgbuf_grow */
    method Grow()
      requires Valid()
      modifies this`buf, this`len
      ensures Valid() && fresh(buf) && HasRoom()
      ensures len == 2 * old(len) && Contents() == old(Contents())
    {
      var bigger := new byte[2 * len];
      forall k | 0 <= k < len {
        bigger[k] := buf[k];
      }
      len := len * 2;
      buf := bigger;
      assert buf[start..end] == old(buf[start..end]);
    }

    /** Copies data behind the buffered bytes; both read and memcpy do this. */
    method Store(data: seq<byte>)
      requires Valid() && end + |data| <= len
      modifies this`end, this`fed, buf
      ensures Valid() && end == old(end) + |data|
      ensures Contents() == old(Contents()) + data && fed == old(fed) + data
    {
      forall k | 0 <= k < |data| {
        buf[end + k] := data[k];
      }
      end := end + |data|;
      assert buf[start..end] == old(buf[start..end]) + data;
      fed := fed + data;
    }

    /** Takes the first n buffered bytes out, starting over at 0 when none are left. */
    method Skip(n: int)
      requires Valid() && 0 <= n <= end - start
      modifies this`start, this`end, this`drained
      ensures Valid() && (old(HasRoom()) ==> HasRoom())
      ensures Contents() == old(Contents())[n..] && drained == old(drained) + old(Contents())[..n]
    {
      ghost var c := Contents();
      assert buf[start..start + n] == c[..n] && buf[start + n..end] == c[n..];
      Assoc(drained, c[..n], c[n..]);
      assert c[..n] + c[n..] == c;
      drained := drained + c[..n];
      start := start + n;
      if start >= end {
        start, end := 0, 0;
      }
    }

    /** msgbuf_read: rc and chunk are what read() returned and stored. */
    method Read(chunk: seq<byte>, rc: int) returns (count: int)
      requires Valid()
      requires if rc > 0 then |chunk| == rc else chunk == []
      requires |chunk| <= len - end
      modifies this, buf
      ensures Valid() && HasRoom() && (buf == old(buf) || fresh(buf))
      ensures count == rc
      ensures Contents() == old(Contents()) + chunk
      ensures fed == old(fed) + chunk && drained == old(drained)
    {
      count := rc;
      Store(chunk);
      if end >= len {
        Grow();
      }
    }

    /** msgbuf_write: rc is what write() returned; sent is what reached the socket. */
    method Write(want: int, rc: int) returns (count: int, sent: seq<byte>)
      requires Valid()
      requires rc <= if 0 < want <= Buffered() then want else Buffered()
      modifies this`start, this`end, this`drained
      ensures Valid() && (old(HasRoom()) ==> HasRoom())
      ensures count == if want > old(Buffered()) then -1 else rc
      ensures sent == if count > 0 then old(Contents())[..count] else []
      ensures want > 0 ==> |sent| <= want
      ensures Contents() == old(Contents())[|sent|..]
      ensures drained == old(drained) + sent
    {
      var send_len := end - start;
      sent := [];
      if want > 0 {
        if send_len < want {
          return -1, sent;
        }
        if send_len > want {
          send_len := want;
        }
      }
      count := rc;
      if count > 0 {
        sent := buf[start..start + count];
        assert sent == Contents()[..count];
      }
      Skip(if count > 0 then count else 0);
    }

    /** msgbuf_clear */
    method Clear()
      requires Valid()
      modifies this`start, this`end, this`fed, this`drained
      ensures Valid() && HasRoom()
      ensures Contents() == [] && fed == [] && drained == []
    {
      start, end := 0, 0;
      fed, drained := [], [];
    }

    /** msgbuf_pull: takes up to count bytes from the front; -1 when that is none. */
    method Pull(count: int) returns (taken: int, data: seq<byte>)
      requires Valid()
      modifies this`start, this`end, this`drained
      ensures Valid() && (old(HasRoom()) ==> HasRoom())
      ensures taken == -1 <==> count <= 0 || old(Contents()) == []
      ensures data <= old(Contents()) && |data| == if taken == -1 then 0 else taken
      ensures taken != -1 ==> taken == count || (taken < count && data == old(Contents()))
      ensures Contents() == old(Contents())[|data|..]
      ensures drained == old(drained) + data && fed == old(fed)
    {
      taken := if count < end - start then count else end - start;
      data := [];
      if taken <= 0 {
        return -1, data;
      }
      data := buf[start..start + taken];
      assert data == Contents()[..taken];
      Skip(taken);
    }

    /** msgbuf_push */
    method Push(data: seq<byte>)
      requires Valid()
      modifies this, buf
      ensures Valid() && (buf == old(buf) || fresh(buf))
      ensures len >= old(len)
      ensures Contents() == old(Contents()) + data
      ensures fed == old(fed) + data && drained == old(drained)
    {
      while end + |data| > len
        invariant Valid() && (buf == old(buf) || fresh(buf))
        invariant len >= old(len) && Contents() == old(Contents())
        invariant fed == old(fed) && drained == old(drained)
        decreases end + |data| - len
      {
        Grow();
      }
      Store(data);
    }
  }
}
