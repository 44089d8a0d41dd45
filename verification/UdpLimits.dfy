/**
  What sending and receiving over UDP share. A datagram of 1400 bytes is a header of 8 and 1392 bytes of
  data; that number is written out where a proof needs the product to be linear.
 */
module UdpLimits {
  const UDP_HEADER_SIZE := 8
}
