/** The bookkeeping a reactor keeps about epoll: the vector m_fds that the code searches, and the
    kernel's interest set that epoll_ctl changes. The code decides between ADD and MOD by looking in
    m_fds, so the two have to agree for its calls to be legal. */
module Interest {
  datatype Option<+T> = None | Some(value: T)

  datatype IOEvent = Read | Write

  type Fd = nat
  type Mask = set<IOEvent>

  datatype EpollOp = Add | Mod | Del

  /** m_fds and the kernel interest set (fd to listened events) of one epoll instance. */
  datatype Poll = Poll(fds: seq<Fd>, kernel: map<Fd, Mask>)

  predicate Distinct<T(==)>(s: seq<T>) {
    forall i, j :: 0 <= i < j < |s| ==> s[i] != s[j]
  }

  /** epoll_ctl refuses ADD of a present fd (EEXIST) and MOD or DEL of an absent one (ENOENT). */
  predicate Legal(kernel: map<Fd, Mask>, op: EpollOp, fd: Fd) {
    op.Add? <==> fd !in kernel
  }

  function CtlResult(kernel: map<Fd, Mask>, op: EpollOp, fd: Fd, mask: Mask): map<Fd, Mask> {
    if !Legal(kernel, op, fd) then kernel
    else if op.Del? then kernel - {fd}
    else kernel[fd := mask]
  }

  /** The operation addEventInLoopThread issues. */
  function ChosenOp(p: Poll, fd: Fd): EpollOp {
    if fd in p.fds then Mod else Add
  }

  /** addEventInLoopThread: a refused epoll_ctl returns before m_fds is touched. */
  function AddInLoop(p: Poll, fd: Fd, mask: Mask): Poll {
    var op := ChosenOp(p, fd);
    if !Legal(p.kernel, op, fd) then p
    else Poll(if op.Add? then p.fds + [fd] else p.fds, CtlResult(p.kernel, op, fd, mask))
  }

  function Without(s: seq<Fd>, fd: Fd): seq<Fd> {
    if s == [] then [] else if s[0] == fd then s[1..] else [s[0]] + Without(s[1..], fd)
  }

  /** delEventInLoopThread: nothing when fd is not in m_fds; otherwise DEL, and the first occurrence
      in m_fds is erased whether or not epoll_ctl succeeded. */
  function DelInLoop(p: Poll, fd: Fd): Poll {
    if fd !in p.fds then p
    else Poll(Without(p.fds, fd), CtlResult(p.kernel, Del, fd, {}))
  }

  /** m_fds is duplicate-free and lists exactly the kernel interest set. */
  ghost predicate Agree(p: Poll) {
    Distinct(p.fds) && forall fd :: fd in p.fds <==> fd in p.kernel
  }

  lemma {:induction false} WithoutRemoves(s: seq<Fd>, fd: Fd)
    requires Distinct(s)
    ensures Distinct(Without(s, fd))
    ensures forall x :: x in Without(s, fd) <==> x in s && x != fd
  {
    if s != [] && s[0] != fd {
      WithoutRemoves(s[1..], fd);
      assert forall x :: x in s <==> x == s[0] || x in s[1..];
      var w := Without(s[1..], fd);
      assert forall x :: x in Without(s, fd) <==> x == s[0] || x in w;
      assert s[0] !in w;
    } else if s != [] {
      assert forall x :: x in s <==> x == s[0] || x in s[1..];
    }
  }

  /** Registering keeps the agreement, is legal, and leaves exactly the requested mask. */
  lemma AddAgrees(p: Poll, fd: Fd, mask: Mask)
    requires Agree(p)
    ensures Legal(p.kernel, ChosenOp(p, fd), fd)
    ensures Agree(AddInLoop(p, fd, mask))
    ensures AddInLoop(p, fd, mask).kernel == p.kernel[fd := mask]
  {
    var q := AddInLoop(p, fd, mask);
    assert forall x :: x in q.fds <==> x in p.fds || x == fd;
  }

  /** Unregistering keeps the agreement, and DEL is issued only when it is legal. */
  lemma DelAgrees(p: Poll, fd: Fd)
    requires Agree(p)
    ensures fd in p.fds ==> Legal(p.kernel, Del, fd)
    ensures Agree(DelInLoop(p, fd))
    ensures DelInLoop(p, fd).kernel == p.kernel - {fd}
  {
    if fd in p.fds {
      WithoutRemoves(p.fds, fd);
    } else {
      assert p.kernel - {fd} == p.kernel;
    }
  }
}
