/** The return codes of the DDS calls that the models branch on, and of the RMW
    functions. Every DDS code other than the first three is DdsError. */
module ReturnCodes {
  datatype DdsCode = DdsOk | DdsNoData | DdsTimeout | DdsError
  datatype RmwCode = RmwOk | RmwError | RmwBadAlloc | RmwInvalidArgument | RmwTimeout
}
