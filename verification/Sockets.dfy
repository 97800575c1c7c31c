// The descriptors a module has open, as the operating system counts them.
module Sockets {

  datatype Os = Os(open: set<int>, opens: nat, closes: nat)

  // socket() or accept() returned ret: a descriptor not in use, or a negative number.
  ghost predicate Returns(os: Os, ret: int) {
    ret >= -1 && ret !in os.open
  }

  function Opened(os: Os, ret: int): Os {
    if ret < 0 then os else os.(open := os.open + {ret}, opens := os.opens + 1)
  }

  function Closed(os: Os, fd: int): Os {
    os.(open := os.open - {fd}, closes := os.closes + 1)
  }

  // A variable that holds a descriptor, -1 for none.
  function Held(socket: int): set<int> {
    if socket == -1 then {} else {socket}
  }

  // Every descriptor opened is still open or was closed, once.
  ghost predicate Balanced(os: Os) {
    os.opens == os.closes + |os.open|
  }

  lemma OpenedBalanced(os: Os, ret: int)
    requires Balanced(os) && Returns(os, ret)
    ensures Balanced(Opened(os, ret))
  {
  }

  lemma ClosedBalanced(os: Os, fd: int)
    requires Balanced(os)
    ensures Balanced(Closed(os, fd)) <==> fd in os.open
  {
    if fd in os.open {
      assert os.open == os.open - {fd} + {fd};
    } else {
      assert os.open - {fd} == os.open;
    }
  }
}
