/** The shared entity types of the application (its `types.ts`) and the
    fixture roster and leave list it ships with (its `constants.tsx`). */
module HrTypes {
  import opened Common

  datatype UserRole = Employee | Admin

  /** The string value of each role. */
  function RoleName(r: UserRole): string
  {
    match r
    case Employee => "EMPLOYEE"
    case Admin => "ADMIN"
  }

  datatype LeaveType = Paid | Sick | Unpaid

  datatype LeaveStatus = Pending | Approved | Rejected

  datatype SalaryStructure = SalaryStructure(
    basic: int, hra: int, specialAllowance: int,
    pf: int, tds: int, professionalTax: int)

  datatype EmployeeProfile = EmployeeProfile(
    id: string,
    employeeId: string,
    fullName: string,
    email: string,
    role: UserRole,
    position: string,
    department: string,
    joinDate: string,
    salary: int,
    phone: string,
    address: string,
    avatar: string,
    salaryStructure: Option<SalaryStructure>,
    managerName: Option<string>)

  datatype LeaveRequest = LeaveRequest(
    id: string,
    employeeId: string,
    employeeName: string,
    leaveType: LeaveType,
    startDate: string,
    endDate: string,
    reason: string,
    status: LeaveStatus,
    appliedDate: string)

  /** The six-person roster every page starts from. */
  const MOCK_EMPLOYEES: seq<EmployeeProfile> := [
    EmployeeProfile("1", "EMP-101", "Priya Verma", "priya.verma@aligna.io", Admin,
      "HR Director", "People Operations", "2021-11-05", 2400000,
      "+91 99887 76655", "Vasant Vihar, New Delhi",
      "https://images.unsplash.com/photo-1494790108377-be9c29b29330?auto=format&fit=crop&q=80&w=200",
      Some(SalaryStructure(100000, 40000, 60000, 12000, 25000, 200)), Some("Sidharth Shukla")),
    EmployeeProfile("2", "EMP-202", "Rahul Sharma", "rahul.sharma@aligna.io", Employee,
      "Lead Engineer", "Software Engineering", "2022-08-12", 3200000,
      "+91 98765 43210", "Indiranagar, Bangalore",
      "https://images.unsplash.com/photo-1507003211169-0a1dd7228f2d?auto=format&fit=crop&q=80&w=200",
      Some(SalaryStructure(133333, 53333, 80000, 16000, 35000, 200)), Some("Sidharth Shukla")),
    EmployeeProfile("3", "EMP-303", "Amit Patel", "amit.patel@aligna.io", Employee,
      "Senior UX Designer", "Product Design", "2023-03-20", 1800000,
      "+91 91234 56789", "Bandra West, Mumbai",
      "https://images.unsplash.com/photo-1500648767791-00dcc994a43e?auto=format&fit=crop&q=80&w=200",
      Some(SalaryStructure(75000, 30000, 45000, 9000, 12000, 200)), Some("Sidharth Shukla")),
    EmployeeProfile("4", "EMP-404", "Neha Gupta", "neha.gupta@aligna.io", Employee,
      "Senior Content Strategist", "Marketing", "2023-06-15", 1200000,
      "+91 92233 44556", "Saket, New Delhi",
      "https://images.unsplash.com/photo-1573496359142-b8d87734a5a2?auto=format&fit=crop&q=80&w=200",
      Some(SalaryStructure(50000, 20000, 30000, 6000, 8000, 200)), Some("Sidharth Shukla")),
    EmployeeProfile("5", "EMP-505", "Suresh Kumar", "suresh.kumar@aligna.io", Employee,
      "Infrastructure Lead", "IT Operations", "2022-01-10", 2800000,
      "+91 93344 55667", "HSR Layout, Bangalore",
      "https://images.unsplash.com/photo-1599566150163-29194dcaad36?auto=format&fit=crop&q=80&w=200",
      Some(SalaryStructure(116666, 46666, 70000, 14000, 28000, 200)), Some("Sidharth Shukla")),
    EmployeeProfile("6", "EMP-606", "Anjali Mehta", "anjali.mehta@aligna.io", Employee,
      "Product Manager", "Product", "2023-09-01", 2200000,
      "+91 94455 66778", "Powai, Mumbai",
      "https://images.unsplash.com/photo-1580489944761-15a19d654956?auto=format&fit=crop&q=80&w=200",
      Some(SalaryStructure(91666, 36666, 55000, 11000, 22000, 200)), Some("Sidharth Shukla"))
  ]

  /** The leave list used when nothing has been saved yet. */
  const MOCK_LEAVES: seq<LeaveRequest> := [
    LeaveRequest("l1", "EMP-202", "Rahul Sharma", Sick, "2024-05-20", "2024-05-21",
      "Suffering from seasonal flu", Pending, "2024-05-18")
  ]
}
